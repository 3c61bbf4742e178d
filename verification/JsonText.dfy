/** The configuration format: trees, how they are printed in two layouts, and
    how text is parsed. */
module JsonText {
  import opened Packets
  import opened JsonStrings

  // Member order and duplicate keys are part of the tree.
  datatype Json =
    | Null
    | False
    | True
    | Num(n: int)
    | Str(s: string)
    | Arr(items: seq<Json>)
    | Obj(members: seq<Member>)

  datatype Member = Member(key: string, value: Json)

  const INT_MAX := 0x7FFF_FFFF

  // What the parser can hand back: 32-bit integers and C strings.
  predicate Valid(j: Json)
    decreases j
  {
    match j
    case Num(n) => -INT_MAX - 1 <= n <= INT_MAX
    case Str(s) => NulFree(s)
    case Arr(items) => AllValid(items)
    case Obj(ms) => AllMembersValid(ms)
    case _ => true
  }

  predicate AllValid(items: seq<Json>)
    decreases items
  {
    items == [] || (Valid(items[0]) && AllValid(items[1..]))
  }

  predicate AllMembersValid(ms: seq<Member>)
    decreases ms
  {
    ms == [] || (NulFree(ms[0].key) && Valid(ms[0].value) && AllMembersValid(ms[1..]))
  }

  // ---- Numbers -----------------------------------------------------------------------

  predicate Digit(c: char) { '0' <= c <= '9' }

  function DigitValue(c: char): nat
    requires Digit(c)
  {
    c as int - '0' as int
  }

  function DigitChar(d: nat): (c: char)
    requires d < 10
    ensures Digit(c) && DigitValue(c) == d
  {
    ('0' as int + d) as char
  }

  function Digits(n: nat): (t: string)
    ensures |t| >= 1 && (forall i | 0 <= i < |t| :: Digit(t[i])) && (n > 0 ==> t[0] != '0')
  {
    if n < 10 then [DigitChar(n)] else Digits(n / 10) + [DigitChar(n % 10)]
  }

  function PrintNum(n: int): string {
    if n < 0 then ['-'] + Digits(-n) else Digits(n)
  }

  // The value of a run of digits after `acc`, and what follows the run.
  function ReadDigits(acc: nat, t: string): (r: (nat, string))
    ensures |r.1| <= |t|
    decreases |t|
  {
    if t == [] || !Digit(t[0]) then (acc, t) else ReadDigits(acc * 10 + DigitValue(t[0]), t[1..])
  }

  function After(t: string, c: char): string {
    if t != [] && t[0] == c then t[1..] else t
  }

  // parse_number on integers.  A leading zero is skipped, and a sign alone is
  // read as zero.
  function ParseNumber(t: string): (r: Parsed<Json>)
    requires t != [] && (t[0] == '-' || Digit(t[0]))
    ensures r.Done? ==> |r.rest| < |t|
  {
    var u := After(After(t, '-'), '0');
    var (n, rest) := if u != [] && '1' <= u[0] <= '9' then ReadDigits(0, u) else (0, u);
    var sign: int := if t[0] == '-' then -1 else 1;
    var v: int := sign * n;
    if |rest| >= 2 && rest[0] == '.' && Digit(rest[1]) then Inexact
    else if rest != [] && (rest[0] == 'e' || rest[0] == 'E') then Inexact
    else if !(-INT_MAX - 1 <= v <= INT_MAX) then Inexact
    else Done(Num(v), rest)
  }

  // ---- Parsing -----------------------------------------------------------------------------

  function Skip(t: string): (r: string)
    ensures |r| <= |t|
  {
    if t != [] && t[0] as int <= 32 then Skip(t[1..]) else t
  }

  // parse_value
  function ParseValue(t: string): (r: Parsed<Json>)
    ensures r.Done? ==> |r.rest| < |t|
    decreases |t|, 0
  {
    if "null" <= t then Done(Null, t[4..])
    else if "false" <= t then Done(False, t[5..])
    else if "true" <= t then Done(True, t[4..])
    else if t == [] then Fail(Some(t))
    else if t[0] == '\"' then
      (match ParseString(t)
       case Done(s, rest) => Done(Str(s), rest)
       case Fail(at) => Fail(at)
       case Inexact => Inexact)
    else if t[0] == '-' || Digit(t[0]) then ParseNumber(t)
    else if t[0] == '[' then
      var v := Skip(t[1..]);
      if v != [] && v[0] == ']' then Done(Arr([]), v[1..])
      else
        (match ParseItems(v)
         case Done(items, rest) => Done(Arr(items), rest)
         case Fail(at) => Fail(at)
         case Inexact => Inexact)
    else if t[0] == '{' then
      var v := Skip(t[1..]);
      if v != [] && v[0] == '}' then Done(Obj([]), v[1..])
      else
        (match ParseMembers(v)
         case Done(ms, rest) => Done(Obj(ms), rest)
         case Fail(at) => Fail(at)
         case Inexact => Inexact)
    else Fail(Some(t))
  }

  // The elements of an array up to and including its closing bracket.
  function ParseItems(t: string): (r: Parsed<seq<Json>>)
    ensures r.Done? ==> |r.rest| < |t|
    decreases |t|, 1
  {
    match ParseValue(Skip(t))
    case Fail(at) => Fail(at)
    case Inexact => Inexact
    case Done(x, rest) =>
      var s := Skip(rest);
      if s != [] && s[0] == ',' then
        (match ParseItems(s[1..])
         case Done(xs, end) => Done([x] + xs, end)
         case Fail(at) => Fail(at)
         case Inexact => Inexact)
      else if s != [] && s[0] == ']' then Done([x], s[1..])
      else Fail(Some(s))
  }

  function ParseMember(t: string): (r: Parsed<Member>)
    ensures r.Done? ==> |r.rest| < |t|
    decreases |t|, 1
  {
    match ParseString(Skip(t))
    case Fail(at) => Fail(at)
    case Inexact => Inexact
    case Done(key, rest) =>
      var s := Skip(rest);
      if s == [] || s[0] != ':' then Fail(Some(s))
      else
        match ParseValue(Skip(s[1..]))
        case Done(v, end) => Done(Member(key, v), end)
        case Fail(at) => Fail(at)
        case Inexact => Inexact
  }

  function ParseMembers(t: string): (r: Parsed<seq<Member>>)
    ensures r.Done? ==> |r.rest| < |t|
    decreases |t|, 2
  {
    match ParseMember(t)
    case Fail(at) => Fail(at)
    case Inexact => Inexact
    case Done(m, rest) =>
      var s := Skip(rest);
      if s != [] && s[0] == ',' then
        (match ParseMembers(s[1..])
         case Done(ms, end) => Done([m] + ms, end)
         case Fail(at) => Fail(at)
         case Inexact => Inexact)
      else if s != [] && s[0] == '}' then Done([m], s[1..])
      else Fail(Some(s))
  }

  // cJSON_Parse; trailing text is left alone.
  function Parse(t: string): Parsed<Json> {
    ParseValue(Skip(t))
  }

  // ---- Printing ----------------------------------------------------------------------------------

  function Tabs(n: nat): (t: string)
    ensures |t| == n && forall i | 0 <= i < n :: t[i] == '\t'
  {
    seq(n, _ => '\t')
  }

  // Text written only in the formatted layout.
  function Fmt(fmt: bool, t: string): string {
    if fmt then t else []
  }

  function Print(j: Json, depth: nat, fmt: bool): (t: string)
    ensures |t| >= 1
    decreases j
  {
    match j
    case Null => "null"
    case False => "false"
    case True => "true"
    case Num(n) => PrintNum(n)
    case Str(s) => Quote(s)
    case Arr(items) =>
      if items == [] then "[]" else "[" + PrintItems(items, depth + 1, fmt) + "]"
    case Obj(ms) =>
      if ms == [] then "{" + Fmt(fmt, "\n" + Tabs(depth)) + "}"
      else "{" + Fmt(fmt, "\n") + PrintMembers(ms, depth + 1, fmt) + Fmt(fmt, Tabs(depth)) + "}"
  }

  function PrintItems(items: seq<Json>, depth: nat, fmt: bool): (t: string)
    requires items != []
    ensures |t| >= 1
    decreases items
  {
    if |items| == 1 then Print(items[0], depth, fmt)
    else Print(items[0], depth, fmt) + "," + Fmt(fmt, " ") + PrintItems(items[1..], depth, fmt)
  }

  function PrintMember(m: Member, depth: nat, fmt: bool): string
    decreases m
  {
    Fmt(fmt, Tabs(depth)) + Quote(m.key) + ":" + Fmt(fmt, "\t") + Print(m.value, depth, fmt)
  }

  function PrintMembers(ms: seq<Member>, depth: nat, fmt: bool): string
    requires ms != []
    decreases ms
  {
    if |ms| == 1 then PrintMember(ms[0], depth, fmt) + Fmt(fmt, "\n")
    else PrintMember(ms[0], depth, fmt) + "," + Fmt(fmt, "\n") + PrintMembers(ms[1..], depth, fmt)
  }

  // ---- Round trip ---------------------------------------------------------------------------------

  // The number that a run of digits makes of `acc`.
  function Accumulate(acc: nat, t: string): nat
    requires forall i | 0 <= i < |t| :: Digit(t[i])
  {
    if t == [] then acc else Accumulate(acc, t[..|t| - 1]) * 10 + DigitValue(t[|t| - 1])
  }

  // Text that does not continue a number.
  predicate EndsNumber(post: string) {
    post == [] || !(Digit(post[0]) || post[0] == '.' || post[0] == 'e' || post[0] == 'E')
  }

  lemma {:induction false} AccumulateFront(acc: nat, t: string)
    requires t != [] && forall i | 0 <= i < |t| :: Digit(t[i])
    ensures Accumulate(acc, t) == Accumulate(acc * 10 + DigitValue(t[0]), t[1..])
    decreases |t|
  {
    if |t| > 1 {
      AccumulateFront(acc, t[..|t| - 1]);
      assert t[..|t| - 1][1..] == t[1..][..|t[1..]| - 1];
    } else {
      assert t[..0] == [];
    }
  }

  lemma {:induction false} DigitsRead(acc: nat, t: string, post: string)
    requires (forall i | 0 <= i < |t| :: Digit(t[i])) && EndsNumber(post)
    ensures ReadDigits(acc, t + post) == (Accumulate(acc, t), post)
    decreases |t|
  {
    if t == [] {
      assert t + post == post;
    } else {
      AccumulateFront(acc, t);
      DigitsRead(acc * 10 + DigitValue(t[0]), t[1..], post);
      assert (t + post)[1..] == t[1..] + post;
    }
  }

  lemma {:induction false} DigitsValue(n: nat)
    ensures Accumulate(0, Digits(n)) == n
  {
    if n >= 10 {
      DigitsValue(n / 10);
      assert Digits(n)[..|Digits(n)| - 1] == Digits(n / 10);
    } else {
      assert Digits(n)[..0] == [];
    }
  }

  lemma ZeroDigits()
    ensures Digits(0) == ['0']
  {
  }

  lemma NumReads(n: int, post: string)
    requires -INT_MAX - 1 <= n <= INT_MAX && EndsNumber(post)
    ensures ParseNumber(PrintNum(n) + post) == Done(Num(n), post)
  {
    hide Accumulate, ReadDigits, Digits;
    var m := if n < 0 then -n else n;
    var t := PrintNum(n) + post;
    var u := After(t, '-');
    assert u == Digits(m) + post;
    if m == 0 {
      assert Digits(m) == ['0'] by { ZeroDigits(); }
      assert u[1..] == post;
    } else {
      assert u[0] == Digits(m)[0];
      DigitsRead(0, Digits(m), post);
      DigitsValue(m);
    }
  }

  /** A minus sign without digits reads as zero. */
  lemma LoneMinusReads(post: string)
    requires EndsNumber(post)
    ensures ParseValue("-" + post) == Done(Num(0), post)
  {
    var t := "-" + post;
    assert t[0] == '-' && t[1..] == post && After(t, '-') == post && After(post, '0') == post;
    assert "null"[0] != t[0] && "false"[0] != t[0] && "true"[0] != t[0];
  }

  // A printed value starts with a character that is no white space and closes nothing.
  lemma PrintStarts(j: Json, depth: nat, fmt: bool)
    ensures var c := Print(j, depth, fmt)[0]; c as int > 32 && c != ']' && c != '}'
  {
  }

  lemma SkipNone(t: string)
    requires t == [] || t[0] as int > 32
    ensures Skip(t) == t
  {
  }

  lemma {:induction false} SkipSpace(w: string, t: string)
    requires forall i | 0 <= i < |w| :: w[i] as int <= 32
    ensures Skip(w + t) == Skip(t)
    decreases |w|
  {
    if w == [] {
      assert w + t == t;
    } else {
      SkipSpace(w[1..], t);
      assert (w + t)[1..] == w[1..] + t;
    }
  }

  lemma {:induction false} ValueReads(j: Json, depth: nat, fmt: bool, post: string)
    requires Valid(j) && EndsNumber(post)
    ensures ParseValue(Print(j, depth, fmt) + post) == Done(j, post)
    decreases j, 1
  {
    var t := Print(j, depth, fmt) + post;
    match j
    case Null => assert t[4..] == post;
    case False => FalseReads(post);
    case True => TrueReads(post);
    case Num(n) => NumReads(n, post);
    case Str(s) => QuoteReads(s, post);
    case Arr(items) => ArrayReads(items, depth, fmt, post);
    case Obj(ms) => ObjectReads(ms, depth, fmt, post);
  }

  lemma FalseReads(post: string)
    ensures ParseValue("false" + post) == Done(False, post)
  {
    var t := "false" + post;
    assert t[0] == 'f' && t[..5] == "false" && t[5..] == post;
  }

  lemma TrueReads(post: string)
    ensures ParseValue("true" + post) == Done(True, post)
  {
    var t := "true" + post;
    assert t[0] == 't' && t[..4] == "true" && t[4..] == post;
  }

  // ---- One step of each parser ---------------------------------------------------------------

  lemma ArrayStep(v: string, items: seq<Json>, post: string)
    requires v != [] && v[0] as int > 32 && v[0] != ']' && ParseItems(v) == Done(items, post)
    ensures ParseValue("[" + v) == Done(Arr(items), post)
  {
    hide ParseItems;
    SkipNone(v);
    var t := "[" + v;
    assert t[0] == '[' && t[1..] == v;
  }

  lemma ObjectStep(v: string, ms: seq<Member>, post: string)
    requires Skip(v) != [] && Skip(v)[0] != '}' && ParseMembers(Skip(v)) == Done(ms, post)
    ensures ParseValue("{" + v) == Done(Obj(ms), post)
  {
    hide ParseMembers;
    var t := "{" + v;
    assert t[0] == '{' && t[1..] == v;
  }

  lemma ItemsStep(t: string, x: Json, rest: string)
    requires ParseValue(Skip(t)) == Done(x, rest) && rest != []
    ensures rest[0] == ']' ==> ParseItems(t) == Done([x], rest[1..])
    ensures rest[0] == ',' && ParseItems(rest[1..]).Done? ==>
              ParseItems(t) == Done([x] + ParseItems(rest[1..]).value, ParseItems(rest[1..]).rest)
  {
    hide ParseValue;
  }

  lemma MemberStep(t: string, key: string, rest: string, v: string, value: Json, post: string)
    requires ParseString(Skip(t)) == Done(key, rest) && rest == ":" + v && ParseValue(Skip(v)) == Done(value, post)
    ensures ParseMember(t) == Done(Member(key, value), post)
  {
    hide ParseValue, ParseString;
    assert rest[1..] == v;
  }

  lemma MembersStep(t: string, m: Member, rest: string)
    requires ParseMember(t) == Done(m, rest) && Skip(rest) != []
    ensures var s := Skip(rest);
            && (s[0] == '}' ==> ParseMembers(t) == Done([m], s[1..]))
            && (s[0] == ',' && ParseMembers(s[1..]).Done? ==>
                  ParseMembers(t) == Done([m] + ParseMembers(s[1..]).value, ParseMembers(s[1..]).rest))
  {
    hide ParseMember;
  }

  lemma MembersSkip(t: string)
    ensures ParseMembers(Skip(t)) == ParseMembers(t)
  {
    hide ParseValue, ParseString;
    SkipTwice(t);
    assert ParseMember(Skip(t)) == ParseMember(t);
  }

  predicate Blank(w: string) {
    forall i | 0 <= i < |w| :: w[i] as int <= 32
  }

  lemma {:induction false} SkipTwice(t: string)
    ensures Skip(Skip(t)) == Skip(t)
  {
    if t != [] && t[0] as int <= 32 {
      SkipTwice(t[1..]);
    }
  }

  // White space, then text that is none.
  lemma SkipTo(w: string, t: string)
    requires Blank(w) && (t == [] || t[0] as int > 32)
    ensures Skip(w + t) == t
  {
    SkipSpace(w, t);
    SkipNone(t);
  }

  // ---- Arrays -------------------------------------------------------------------------------------

  lemma {:induction false} ArrayReads(items: seq<Json>, depth: nat, fmt: bool, post: string)
    requires AllValid(items)
    ensures ParseValue(Print(Arr(items), depth, fmt) + post) == Done(Arr(items), post)
    decreases items, 2
  {
    if items == [] {
      EmptyArrayReads(depth, fmt, post);
    } else {
      hide ParseValue, ParseItems, PrintItems;
      var v := PrintItems(items, depth + 1, fmt) + ("]" + post);
      assert Print(Arr(items), depth, fmt) + post == "[" + v;
      ItemsStart(items, depth + 1, fmt);
      ItemsRead(items, depth + 1, fmt, [], post);
      assert [] + v == v;
      ArrayStep(v, items, post);
    }
  }

  lemma EmptyArrayReads(depth: nat, fmt: bool, post: string)
    ensures ParseValue(Print(Arr([]), depth, fmt) + post) == Done(Arr([]), post)
  {
    hide ParseItems;
    var t := Print(Arr([]), depth, fmt) + post;
    assert t[1..] == "]" + post && t[2..] == post;
    assert Skip(t[1..]) == t[1..];
  }

  lemma ItemsStart(items: seq<Json>, depth: nat, fmt: bool)
    requires items != []
    ensures var c := PrintItems(items, depth, fmt)[0]; c as int > 32 && c != ']' && c != '}'
  {
    PrintStarts(items[0], depth, fmt);
  }

  // An array's text, first element apart.
  lemma ItemsSplit(items: seq<Json>, depth: nat, fmt: bool, e: string)
    requires items != []
    ensures PrintItems(items, depth, fmt) + e ==
            Print(items[0], depth, fmt) +
            if |items| == 1 then e else "," + (Fmt(fmt, " ") + (PrintItems(items[1..], depth, fmt) + e))
  {
    hide Print, Fmt;
  }

  lemma {:induction false} ItemsRead(items: seq<Json>, depth: nat, fmt: bool, w: string, post: string)
    requires AllValid(items) && items != [] && Blank(w)
    ensures ParseItems(w + (PrintItems(items, depth, fmt) + ("]" + post))) == Done(items, post)
    decreases items, 1
  {
    hide ParseValue, ParseItems, PrintItems, Print;
    var e, x := "]" + post, Print(items[0], depth, fmt);
    var more := if |items| == 1 then [] else Fmt(fmt, " ") + (PrintItems(items[1..], depth, fmt) + e);
    var tail := if |items| == 1 then e else "," + more;
    ItemsSplit(items, depth, fmt, e);
    PrintStarts(items[0], depth, fmt);
    SkipTo(w, x + tail);
    ValueReads(items[0], depth, fmt, tail);
    ItemsStep(w + (x + tail), items[0], tail);
    if |items| == 1 {
      assert tail[1..] == post && [items[0]] == items;
    } else {
      ItemsRead(items[1..], depth, fmt, Fmt(fmt, " "), post);
      assert tail[1..] == more && [items[0]] + items[1..] == items;
    }
  }

  // ---- Objects ------------------------------------------------------------------------------------

  // A member's text, from its key on.
  function KeyOn(m: Member, depth: nat, fmt: bool, tail: string): string {
    Quote(m.key) + (":" + (Fmt(fmt, "\t") + (Print(m.value, depth, fmt) + tail)))
  }

  lemma MemberSplit(m: Member, depth: nat, fmt: bool, w: string, tail: string)
    ensures w + (PrintMember(m, depth, fmt) + tail) == (w + Fmt(fmt, Tabs(depth))) + KeyOn(m, depth, fmt, tail)
  {
    hide Print, Quote, Fmt, Tabs;
  }

  lemma {:induction false} MemberReads(m: Member, depth: nat, fmt: bool, w: string, tail: string)
    requires NulFree(m.key) && Valid(m.value) && Blank(w) && EndsNumber(tail)
    ensures ParseMember(w + (PrintMember(m, depth, fmt) + tail)) == Done(m, tail)
    decreases m, 1
  {
    hide ParseValue, ParseString, Print, Quote, PrintMember, ParseMember;
    var x := Print(m.value, depth, fmt) + tail;
    var v := Fmt(fmt, "\t") + x;
    var q := KeyOn(m, depth, fmt, tail);
    MemberSplit(m, depth, fmt, w, tail);
    SkipTo(w + Fmt(fmt, Tabs(depth)), q);
    QuoteReads(m.key, ":" + v);
    PrintStarts(m.value, depth, fmt);
    SkipTo(Fmt(fmt, "\t"), x);
    ValueReads(m.value, depth, fmt, tail);
    MemberStep(w + Fmt(fmt, Tabs(depth)) + q, m.key, ":" + v, v, m.value, tail);
  }

  // An object's text, first member apart; `z` is the white space before the brace.
  lemma MembersSplit(ms: seq<Member>, depth: nat, fmt: bool, z: string, e: string)
    requires ms != []
    ensures PrintMembers(ms, depth, fmt) + (z + e) ==
            PrintMember(ms[0], depth, fmt) +
            if |ms| == 1 then (Fmt(fmt, "\n") + z) + e
            else "," + (Fmt(fmt, "\n") + (PrintMembers(ms[1..], depth, fmt) + (z + e)))
  {
    hide PrintMember, Fmt;
  }

  lemma {:induction false} MembersRead(ms: seq<Member>, depth: nat, fmt: bool, w: string, z: string, post: string)
    requires AllMembersValid(ms) && ms != [] && Blank(w) && Blank(z)
    ensures ParseMembers(w + (PrintMembers(ms, depth, fmt) + (z + ("}" + post)))) == Done(ms, post)
    decreases ms, 1
  {
    hide ParseMember, ParseMembers, PrintMember, PrintMembers;
    var e := "}" + post;
    var more := if |ms| == 1 then [] else Fmt(fmt, "\n") + (PrintMembers(ms[1..], depth, fmt) + (z + e));
    var tail := if |ms| == 1 then (Fmt(fmt, "\n") + z) + e else "," + more;
    MembersSplit(ms, depth, fmt, z, e);
    MemberReads(ms[0], depth, fmt, w, tail);
    var t := w + (PrintMember(ms[0], depth, fmt) + tail);
    if |ms| == 1 {
      SkipTo(Fmt(fmt, "\n") + z, e);
      MembersStep(t, ms[0], tail);
      assert e[1..] == post && [ms[0]] == ms;
    } else {
      SkipNone(tail);
      MembersStep(t, ms[0], tail);
      MembersRead(ms[1..], depth, fmt, Fmt(fmt, "\n"), z, post);
      assert tail[1..] == more && [ms[0]] + ms[1..] == ms;
    }
  }

  lemma {:induction false} ObjectReads(ms: seq<Member>, depth: nat, fmt: bool, post: string)
    requires AllMembersValid(ms)
    ensures ParseValue(Print(Obj(ms), depth, fmt) + post) == Done(Obj(ms), post)
    decreases ms, 2
  {
    hide ParseValue, ParseMembers, PrintMembers, Valid, AllMembersValid, ParseMember;
    if ms == [] {
      EmptyObjectReads(depth, fmt, post);
    } else {
      hide ParseValue, ParseMembers, PrintMembers;
      var w, z := Fmt(fmt, "\n"), Fmt(fmt, Tabs(depth));
      var body := PrintMembers(ms, depth + 1, fmt) + (z + ("}" + post));
      assert Print(Obj(ms), depth, fmt) + post == "{" + (w + body);
      MembersRead(ms, depth + 1, fmt, w, z, post);
      MembersSkip(w + body);
      MembersStart(ms, depth + 1, fmt, w, z, "}" + post);
      ObjectStep(w + body, ms, post);
    }
  }

  lemma EmptyObjectReads(depth: nat, fmt: bool, post: string)
    ensures ParseValue(Print(Obj([]), depth, fmt) + post) == Done(Obj([]), post)
  {
    hide ParseMembers, ParseItems, ParseString, ParseNumber;
    var t := Print(Obj([]), depth, fmt) + post;
    var w := Fmt(fmt, "\n" + Tabs(depth));
    assert t[1..] == w + ("}" + post);
    SkipTo(w, "}" + post);
    assert ("}" + post)[1..] == post;
  }

  // Past its white space, the body of a non-empty object starts with a key.
  lemma MembersStart(ms: seq<Member>, depth: nat, fmt: bool, w: string, z: string, e: string)
    requires ms != [] && Blank(w)
    ensures var v := Skip(w + (PrintMembers(ms, depth, fmt) + (z + e))); v != [] && v[0] == '\"'
  {
    hide Quote, PrintMember, PrintMembers, Print;
    var m := ms[0];
    var tail := if |ms| == 1 then (Fmt(fmt, "\n") + z) + e
                else "," + (Fmt(fmt, "\n") + (PrintMembers(ms[1..], depth, fmt) + (z + e)));
    MembersSplit(ms, depth, fmt, z, e);
    MemberSplit(m, depth, fmt, w, tail);
    SkipTo(w + Fmt(fmt, Tabs(depth)), KeyOn(m, depth, fmt, tail));
  }

  /** Parsing either print gives the tree back, with member order and duplicate
      keys kept, and nothing of the text is left. */
  lemma RoundTrip(j: Json, fmt: bool)
    requires Valid(j)
    ensures Parse(Print(j, 0, fmt)) == Done(j, [])
  {
    hide ParseValue, Print;
    var t := Print(j, 0, fmt);
    PrintStarts(j, 0, fmt);
    SkipNone(t);
    ValueReads(j, 0, fmt, []);
    assert t + [] == t;
  }

  /** So each print determines the tree. */
  lemma PrintInjective(j: Json, k: Json, fmt: bool)
    requires Valid(j) && Valid(k) && Print(j, 0, fmt) == Print(k, 0, fmt)
    ensures j == k
  {
    hide Parse, Print;
    RoundTrip(j, fmt);
    RoundTrip(k, fmt);
  }

  // The two layouts of [1, -2] and of an empty object one level down.
  lemma SmallLayouts()
    ensures Print(Arr([Num(1), Num(-2)]), 1, true) == "[1, -2]" && Print(Arr([Num(1), Num(-2)]), 1, false) == "[1,-2]"
    ensures Print(Obj([]), 1, true) == "{\n\t}" && Print(Obj([]), 1, false) == "{}"
    ensures Quote("a") == "\"a\"" && Quote("b") == "\"b\""
  {
    var items := [Num(1), Num(-2)];
    assert items[1..] == [Num(-2)];
    assert PrintNum(1) == "1" && PrintNum(-2) == "-2";
    assert Tabs(1) == "\t";
    assert Escape("a") == EscapeChar('a') + Escape([]) && Escape("b") == EscapeChar('b') + Escape([]);
  }

  /** The formatted layout puts each member on a line of its own, indented by
      depth, its value after a tab, and array elements on one line; the other has
      no white space at all. */
  lemma LayoutExample()
    ensures var j := Obj([Member("a", Arr([Num(1), Num(-2)])), Member("b", Obj([]))]);
            && Print(j, 0, true) == "{" + "\n" + ("\t\"a\":\t[1, -2]" + "," + "\n" + ("\t\"b\":\t{\n\t}" + "\n")) + "}"
            && Print(j, 0, false) == "{" + ("\"a\":[1,-2]" + "," + "\"b\":{}") + "}"
  {
    hide Print, PrintMember, PrintMembers, Quote;
    var m, n := Member("a", Arr([Num(1), Num(-2)])), Member("b", Obj([]));
    MemberLayouts(m, n);
    MembersLayout(m, n);
    ObjectLayout([m, n]);
  }

  lemma MemberLayouts(m: Member, n: Member)
    requires m == Member("a", Arr([Num(1), Num(-2)])) && n == Member("b", Obj([]))
    ensures PrintMember(m, 1, true) == "\t\"a\":\t[1, -2]" && PrintMember(m, 1, false) == "\"a\":[1,-2]"
    ensures PrintMember(n, 1, true) == "\t\"b\":\t{\n\t}" && PrintMember(n, 1, false) == "\"b\":{}"
  {
    hide Print, Quote;
    SmallLayouts();
    assert Tabs(1) == "\t";
  }

  lemma MembersLayout(m: Member, n: Member)
    ensures PrintMembers([m, n], 1, true) ==
            PrintMember(m, 1, true) + "," + "\n" + (PrintMember(n, 1, true) + "\n")
    ensures PrintMembers([m, n], 1, false) == PrintMember(m, 1, false) + "," + PrintMember(n, 1, false)
  {
    hide PrintMember;
    assert [m, n][1..] == [n];
  }

  lemma ObjectLayout(ms: seq<Member>)
    requires ms != []
    ensures Print(Obj(ms), 0, true) == "{" + "\n" + PrintMembers(ms, 1, true) + "}"
    ensures Print(Obj(ms), 0, false) == "{" + PrintMembers(ms, 1, false) + "}"
  {
    hide PrintMembers;
  }
}
