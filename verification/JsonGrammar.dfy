/** The grammar of the configuration format, and that the parser accepts exactly
    its texts, with exactly their trees. */
module JsonGrammar {
  import opened Packets
  import opened JsonStrings
  import opened JsonText

  // ---- Strings -----------------------------------------------------------------------

  // Text without a quote of its own, and without a backslash left over at its end.
  predicate Inner(lit: string)
    decreases |lit|
  {
    lit == [] ||
    if lit[0] == '\\' then |lit| >= 2 && Inner(lit[2..]) else lit[0] != '\"' && Inner(lit[1..])
  }

  // A literal for `s`, closed by its quote or by the end of the text.
  ghost predicate StringAt(t: string, s: string, rest: string) {
    exists n :: 1 <= n <= |t| && LiteralTo(t, n, s, rest)
  }

  ghost predicate LiteralTo(t: string, n: nat, s: string, rest: string)
    requires 1 <= n <= |t|
  {
    && t[0] == '\"' && Inner(t[1..n]) && Denotes(t[1..n], s)
    && if n == |t| then rest == [] else t[n] == '\"' && rest == t[n + 1..]
  }

  lemma {:induction false} ScanExactly(t: string, e: nat)
    ensures ScanEnd(t) == Some(e) <==> e <= |t| && Inner(t[..e]) && (e < |t| ==> t[e] == '\"')
    decreases |t|
  {
    if t == [] || t[0] == '\"' {
      assert e <= |t| && e > 0 ==> t[..e][0] == t[0];
      assert t[..0] == [];
    } else if t[0] == '\\' {
      if |t| >= 2 && e >= 2 {
        ScanExactly(t[2..], e - 2);
        if e <= |t| {
          assert t[..e][2..] == t[2..][..e - 2] && t[..e][0] == t[0];
        }
      } else if e <= |t| && e > 0 {
        assert t[..e][0] == '\\';
      }
    } else if e >= 1 {
      ScanExactly(t[1..], e - 1);
      if e <= |t| {
        assert t[..e][1..] == t[1..][..e - 1] && t[..e][0] == t[0];
      }
    }
  }

  lemma StringExactly(t: string, s: string, rest: string)
    ensures ParseString(t) == Done(s, rest) <==> StringAt(t, s, rest)
  {
    hide ScanEnd, Inner, Decode, Denotes;
    if t != [] && t[0] == '\"' {
      var body, e := t[1..], ScanEnd(t[1..]);
      if e.Some? {
        ScanExactly(body, e.value);
        DecodeExact(body[..e.value], s);
        assert t[1..e.value + 1] == body[..e.value];
        assert e.value < |body| ==> t[e.value + 1] == body[e.value] && t[e.value + 2..] == body[e.value + 1..];
        assert LiteralTo(t, e.value + 1, s, rest) <==> ParseString(t) == Done(s, rest);
      }
      if StringAt(t, s, rest) {
        var n :| 1 <= n <= |t| && LiteralTo(t, n, s, rest);
        assert body[..n - 1] == t[1..n];
        ScanExactly(body, n - 1);
      }
    }
  }

  // ---- Numbers -----------------------------------------------------------------------

  predicate AllDigits(ds: string) {
    forall i | 0 <= i < |ds| :: Digit(ds[i])
  }

  function Maybe(there: bool, c: char): string {
    if there then [c] else []
  }

  function Signed(neg: bool, v: int): int {
    if neg then -v else v
  }

  // A sign, a zero and digits without a leading zero, all optional but not all
  // missing, as far as they go.  Fractions and exponents are not integers.
  predicate NumberTo(t: string, neg: bool, zero: bool, ds: string, n: int, rest: string) {
    && t == Maybe(neg, '-') + (Maybe(zero, '0') + (ds + rest))
    && (neg || zero || ds != []) && AllDigits(ds) && (ds != [] ==> ds[0] != '0')
    && n == Signed(neg, Accumulate(0, ds)) && -0x8000_0000 <= n <= 0x7FFF_FFFF
    && (rest != [] && Digit(rest[0]) ==> ds == [] && zero && rest[0] == '0')
    && (rest != [] ==> rest[0] != 'e' && rest[0] != 'E')
    && (|rest| >= 2 && rest[0] == '.' ==> !Digit(rest[1]))
  }

  ghost predicate NumberAt(t: string, n: int, rest: string) {
    exists neg, zero, ds :: NumberTo(t, neg, zero, ds, n, rest)
  }

  // All the digits at the front of a text.
  function DigitRun(t: string): (ds: string)
    ensures |ds| <= |t| && ds == t[..|ds|] && AllDigits(ds) && (|ds| < |t| ==> !Digit(t[|ds|]))
  {
    if t == [] || !Digit(t[0]) then [] else [t[0]] + DigitRun(t[1..])
  }

  // Reading digits takes all there are.
  lemma {:induction false} RunTaken(acc: nat, t: string)
    ensures ReadDigits(acc, t) == (Accumulate(acc, DigitRun(t)), t[|DigitRun(t)|..])
    decreases |t|
  {
    hide Accumulate;
    if t == [] || !Digit(t[0]) {
      NothingAccumulated(acc);
    } else {
      RunTaken(acc * 10 + DigitValue(t[0]), t[1..]);
      var ds := DigitRun(t);
      assert ds[1..] == DigitRun(t[1..]);
      AccumulateFront(acc, ds);
      assert t[1..][|ds| - 1..] == t[|ds|..];
    }
  }

  lemma DigitsExactly(acc: nat, t: string) returns (ds: string)
    ensures var (v, rest) := ReadDigits(acc, t);
            && AllDigits(ds) && t == ds + rest && v == Accumulate(acc, ds) && (rest != [] ==> !Digit(rest[0]))
            && (t != [] && Digit(t[0]) ==> ds != [] && ds[0] == t[0])
  {
    hide Accumulate, ReadDigits;
    RunTaken(acc, t);
    ds := DigitRun(t);
  }

  // And all of a run that no digit follows.
  lemma {:induction false} DigitsTaken(acc: nat, ds: string, rest: string)
    requires AllDigits(ds) && (rest != [] ==> !Digit(rest[0]))
    ensures ReadDigits(acc, ds + rest) == (Accumulate(acc, ds), rest)
    decreases |ds|
  {
    hide Accumulate;
    if ds == [] {
      NothingAccumulated(acc);
      assert ds + rest == rest;
    } else {
      AccumulateFront(acc, ds);
      DigitsTaken(acc * 10 + DigitValue(ds[0]), ds[1..], rest);
      assert (ds + rest)[1..] == ds[1..] + rest;
    }
  }

  lemma NumberExactly(t: string, n: int, rest: string)
    requires t != [] && (t[0] == '-' || Digit(t[0]))
    ensures ParseNumber(t) == Done(Num(n), rest) <==> NumberAt(t, n, rest)
  {
    if ParseNumber(t) == Done(Num(n), rest) {
      NumberParsed(t, n, rest);
    }
    if NumberAt(t, n, rest) {
      var neg, zero, ds :| NumberTo(t, neg, zero, ds, n, rest);
      NumberReads(t, neg, zero, ds, n, rest);
    }
  }

  lemma AfterMaybe(t: string, c: char)
    ensures t == Maybe(t != [] && t[0] == c, c) + After(t, c)
  {
  }

  lemma MaybeSkipped(there: bool, c: char, u: string)
    requires there || u == [] || u[0] != c
    ensures After(Maybe(there, c) + u, c) == u
  {
  }

  // The rest of a number's text once the sign and the zero are gone.
  lemma {:induction false} TailParsed(u: string) returns (ds: string)
    ensures var (n, rest) := if u != [] && '1' <= u[0] <= '9' then ReadDigits(0, u) else (0, u);
            && u == ds + rest && AllDigits(ds) && (ds != [] ==> ds[0] != '0') && n == Accumulate(0, ds)
            && (rest != [] && Digit(rest[0]) ==> ds == [] && rest[0] == '0')
            && (u != [] && '1' <= u[0] <= '9' ==> ds != [])
  {
    hide ReadDigits, Accumulate;
    if u != [] && '1' <= u[0] <= '9' {
      ds := DigitsExactly(0, u);
    } else {
      ds := [];
      NothingAccumulated(0);
      assert u == [] + u;
    }
  }

  lemma NothingAccumulated(acc: nat)
    ensures Accumulate(acc, []) == acc
  {
  }

  lemma TailReads(ds: string, rest: string)
    requires AllDigits(ds) && (ds != [] ==> ds[0] != '0')
    requires rest != [] && Digit(rest[0]) ==> ds == [] && rest[0] == '0'
    ensures var u := ds + rest;
            (if u != [] && '1' <= u[0] <= '9' then ReadDigits(0, u) else (0, u)) == (Accumulate(0, ds), rest)
  {
    hide ReadDigits, Accumulate;
    if ds == [] {
      NothingAccumulated(0);
      assert ds + rest == rest;
    } else {
      DigitsTaken(0, ds, rest);
    }
  }

  lemma NumberParsed(t: string, n: int, rest: string)
    requires t != [] && (t[0] == '-' || Digit(t[0])) && ParseNumber(t) == Done(Num(n), rest)
    ensures NumberAt(t, n, rest)
  {
    hide ReadDigits, Accumulate, After, Maybe;
    var u0 := After(t, '-');
    var u := After(u0, '0');
    var neg, zero := t[0] == '-', u0 != [] && u0[0] == '0';
    AfterMaybe(t, '-');
    AfterMaybe(u0, '0');
    var ds := TailParsed(u);
    NotAll(t);
    assert NumberTo(t, neg, zero, ds, n, rest);
  }

  // Without sign and zero there are digits, and a zero left over comes after one.
  lemma NotAll(t: string)
    requires t != [] && (t[0] == '-' || Digit(t[0]))
    ensures var u0 := After(t, '-');
            var u := After(u0, '0');
            && (t[0] == '-' || (u0 != [] && u0[0] == '0') || (u != [] && '1' <= u[0] <= '9'))
            && (u != [] && u[0] == '0' ==> u0 != [] && u0[0] == '0')
  {
  }

  lemma NumberReads(t: string, neg: bool, zero: bool, ds: string, n: int, rest: string)
    requires NumberTo(t, neg, zero, ds, n, rest)
    ensures t != [] && (t[0] == '-' || Digit(t[0])) && ParseNumber(t) == Done(Num(n), rest)
  {
    hide ReadDigits, Accumulate, After, Maybe, Digit;
    Starts(t, neg, zero, ds, rest);
    MaybeSkipped(neg, '-', Maybe(zero, '0') + (ds + rest));
    MaybeSkipped(zero, '0', ds + rest);
    TailReads(ds, rest);
    SignTimes(neg, Accumulate(0, ds));
  }

  lemma SignTimes(neg: bool, v: int)
    ensures (if neg then -1 else 1) * v == Signed(neg, v)
  {
  }

  lemma Starts(t: string, neg: bool, zero: bool, ds: string, rest: string)
    requires t == Maybe(neg, '-') + (Maybe(zero, '0') + (ds + rest)) && (neg || zero || ds != []) && AllDigits(ds)
    requires (ds != [] ==> ds[0] != '0') && (rest != [] && Digit(rest[0]) ==> ds == [] && zero && rest[0] == '0')
    ensures t != [] && (t[0] == '-' || Digit(t[0])) && (t[0] == '-' <==> neg)
    ensures neg || (Maybe(zero, '0') + (ds + rest))[0] != '-'
    ensures zero || ds + rest == [] || (ds + rest)[0] != '0'
  {
  }

  // ---- Values ------------------------------------------------------------------------

  // The text starts with a spelling of `j`, and `rest` is what follows it.  White
  // space may stand before and after every value, key, comma and colon.
  ghost predicate ValueAt(t: string, j: Json, rest: string)
    decreases j, 1
  {
    match j
    case Null => t == "null" + rest
    case False => t == "false" + rest
    case True => t == "true" + rest
    case Num(n) => NumberAt(t, n, rest)
    case Str(s) => StringAt(t, s, rest)
    case Arr(items) => exists n :: 1 <= n <= |t| && ArrayTo(t, n, items, rest)
    case Obj(ms) => exists n :: 1 <= n <= |t| && ObjectTo(t, n, ms, rest)
  }

  ghost predicate ArrayTo(t: string, n: nat, items: seq<Json>, rest: string)
    requires 1 <= n <= |t|
    decreases items, 2
  {
    && t[0] == '[' && Blank(t[1..n])
    && if items == [] then t[n..] == "]" + rest else ItemsAt(t[n..], items, rest)
  }

  ghost predicate ItemsAt(t: string, items: seq<Json>, rest: string)
    requires items != []
    decreases items, 1
  {
    exists n, v :: 0 <= n <= |t| && Blank(t[..n]) && ValueAt(t[n..], items[0], v) && ItemsAfter(v, items, rest)
  }

  // Behind the first element: the closing bracket, or a comma and more.
  ghost predicate ItemsAfter(v: string, items: seq<Json>, rest: string)
    requires items != []
    decreases items, 0
  {
    exists k :: 0 <= k < |v| && Blank(v[..k])
                && if |items| == 1 then v[k] == ']' && rest == v[k + 1..]
                   else v[k] == ',' && ItemsAt(v[k + 1..], items[1..], rest)
  }

  ghost predicate ObjectTo(t: string, n: nat, ms: seq<Member>, rest: string)
    requires 1 <= n <= |t|
    decreases ms, 2
  {
    && t[0] == '{' && Blank(t[1..n])
    && if ms == [] then t[n..] == "}" + rest else MembersAt(t[n..], ms, rest)
  }

  ghost predicate MembersAt(t: string, ms: seq<Member>, rest: string)
    requires ms != []
    decreases ms, 1
  {
    exists v :: MemberAt(t, ms[0], v) && MembersAfter(v, ms, rest)
  }

  ghost predicate MembersAfter(v: string, ms: seq<Member>, rest: string)
    requires ms != []
    decreases ms, 0
  {
    exists k :: 0 <= k < |v| && Blank(v[..k])
                && if |ms| == 1 then v[k] == '}' && rest == v[k + 1..]
                   else v[k] == ',' && MembersAt(v[k + 1..], ms[1..], rest)
  }

  ghost predicate MemberAt(t: string, m: Member, rest: string)
    decreases m, 1
  {
    exists n, u :: 0 <= n <= |t| && Blank(t[..n]) && StringAt(t[n..], m.key, u) && ColonAt(u, m, rest)
  }

  ghost predicate ColonAt(u: string, m: Member, rest: string)
    decreases m, 0
  {
    exists k, i :: 0 <= k < i <= |u| && Blank(u[..k]) && u[k] == ':' && Blank(u[k + 1..i])
                   && ValueAt(u[i..], m.value, rest)
  }

  // ---- White space -------------------------------------------------------------------

  // Where the white space at the front ends.
  function Gap(t: string): (n: nat)
    ensures n <= |t| && Blank(t[..n]) && t[n..] == Skip(t) && (n < |t| ==> t[n] as int > 32)
  {
    if t != [] && t[0] as int <= 32 then
      var n := Gap(t[1..]);
      assert t[..n + 1] == [t[0]] + t[1..][..n];
      n + 1
    else 0
  }

  lemma GapIs(t: string, n: nat)
    requires n <= |t| && Blank(t[..n]) && (n < |t| ==> t[n] as int > 32)
    ensures Skip(t) == t[n..]
  {
    SkipTo(t[..n], t[n..]);
    assert t[..n] + t[n..] == t;
  }

  lemma GapSkips(t: string, n: nat)
    requires n <= |t| && Blank(t[..n])
    ensures Skip(t) == Skip(t[n..])
  {
    SkipSpace(t[..n], t[n..]);
    assert t[..n] + t[n..] == t;
  }

  // ---- What is parsed is spelled --------------------------------------------------------

  lemma {:induction false} ParsedValue(t: string, j: Json, rest: string)
    requires ParseValue(t) == Done(j, rest)
    ensures ValueAt(t, j, rest)
    decreases |t|, 1
  {
    hide ParseString, ParseNumber, ParseItems, ParseMembers, ItemsAt, MembersAt, StringAt, NumberAt;
    if "null" <= t {
      assert t == t[..4] + t[4..];
    } else if "false" <= t {
      assert t == t[..5] + t[5..];
    } else if "true" <= t {
      assert t == t[..4] + t[4..];
    } else if t[0] == '\"' {
      StringExactly(t, j.s, rest);
    } else if t[0] == '-' || Digit(t[0]) {
      NumberIsNum(t);
      NumberExactly(t, j.n, rest);
    } else if t[0] == '[' {
      ParsedArray(t, j.items, rest);
    } else {
      ParsedObject(t, j.members, rest);
    }
  }

  lemma {:induction false} ParsedArray(t: string, items: seq<Json>, rest: string)
    requires t != [] && t[0] == '['
    requires var v := Skip(t[1..]);
             if v != [] && v[0] == ']' then items == [] && rest == v[1..] else ParseItems(v) == Done(items, rest)
    ensures ValueAt(t, Arr(items), rest)
    decreases |t|, 0
  {
    hide ParseItems, ItemsAt, ValueAt, Skip;
    var n := Gap(t[1..]) + 1;
    assert t[1..][n - 1..] == t[n..] && t[1..n] == t[1..][..n - 1];
    if n < |t| && t[n] == ']' {
      assert t[n..] == "]" + rest;
    } else {
      ParsedItems(t[n..], items, rest);
    }
    ArrayBegins(t, n, items, rest);
  }

  lemma ArrayBegins(t: string, n: nat, items: seq<Json>, rest: string)
    requires 1 <= n <= |t| && ArrayTo(t, n, items, rest)
    ensures ValueAt(t, Arr(items), rest)
  {
    hide ArrayTo;
  }

  lemma {:induction false} ParsedObject(t: string, ms: seq<Member>, rest: string)
    requires t != [] && t[0] == '{'
    requires var v := Skip(t[1..]);
             if v != [] && v[0] == '}' then ms == [] && rest == v[1..] else ParseMembers(v) == Done(ms, rest)
    ensures ValueAt(t, Obj(ms), rest)
    decreases |t|, 0
  {
    hide ParseMembers, MembersAt, ValueAt, Skip;
    var n := Gap(t[1..]) + 1;
    assert t[1..][n - 1..] == t[n..] && t[1..n] == t[1..][..n - 1];
    if n < |t| && t[n] == '}' {
      assert t[n..] == "}" + rest;
    } else {
      ParsedMembers(t[n..], ms, rest);
    }
    ObjectBegins(t, n, ms, rest);
  }

  lemma ObjectBegins(t: string, n: nat, ms: seq<Member>, rest: string)
    requires 1 <= n <= |t| && ObjectTo(t, n, ms, rest)
    ensures ValueAt(t, Obj(ms), rest)
  {
    hide ObjectTo;
  }

  lemma NumberIsNum(t: string)
    requires t != [] && (t[0] == '-' || Digit(t[0])) && ParseNumber(t).Done?
    ensures ParseNumber(t).value.Num?
  {
    hide ReadDigits;
  }

  lemma {:induction false} ParsedItems(t: string, items: seq<Json>, rest: string)
    requires ParseItems(t) == Done(items, rest)
    ensures items != [] && ItemsAt(t, items, rest)
    decreases |t|, 2
  {
    hide ParseValue, ValueAt, ItemsAt;
    var n := Gap(t);
    var x, v := ParseValue(Skip(t)).value, ParseValue(Skip(t)).rest;
    ParsedValue(Skip(t), x, v);
    var k := Gap(v);
    if v[k] == ',' {
      assert v[k..][1..] == v[k + 1..];
      ParsedItems(v[k + 1..], items[1..], rest);
    } else {
      assert v[k..][1..] == v[k + 1..];
    }
    assert ItemsAfter(v, items, rest);
    ItemsBegin(t, n, v, items, rest);
  }

  lemma ItemsBegin(t: string, n: nat, v: string, items: seq<Json>, rest: string)
    requires items != [] && n <= |t| && Blank(t[..n]) && ValueAt(t[n..], items[0], v) && ItemsAfter(v, items, rest)
    ensures ItemsAt(t, items, rest)
  {
    hide ValueAt, ItemsAfter, Blank;
  }

  lemma {:induction false} ParsedMember(t: string, m: Member, rest: string)
    requires ParseMember(t) == Done(m, rest)
    ensures MemberAt(t, m, rest)
    decreases |t|, 2
  {
    hide ParseValue, ParseString, ValueAt, StringAt, ColonAt;
    var n := Gap(t);
    var u := ParseString(Skip(t)).rest;
    StringExactly(Skip(t), m.key, u);
    var k := Gap(u);
    assert u[k..][1..] == u[k + 1..];
    var v := u[k + 1..];
    ParsedValue(Skip(v), m.value, rest);
    ColonBegins(u, k, m, rest);
  }

  lemma ColonBegins(u: string, k: nat, m: Member, rest: string)
    requires k < |u| && Blank(u[..k]) && u[k] == ':' && ValueAt(Skip(u[k + 1..]), m.value, rest)
    ensures ColonAt(u, m, rest)
  {
    hide ValueAt, Skip;
    var v := u[k + 1..];
    var i := k + 1 + Gap(v);
    assert v[i - k - 1..] == u[i..] && u[k + 1..i] == v[..i - k - 1];
  }

  lemma {:induction false} ParsedMembers(t: string, ms: seq<Member>, rest: string)
    requires ParseMembers(t) == Done(ms, rest)
    ensures ms != [] && MembersAt(t, ms, rest)
    decreases |t|, 3
  {
    hide ParseMember, MemberAt, MembersAt;
    var m, v := ParseMember(t).value, ParseMember(t).rest;
    ParsedMember(t, m, v);
    var k := Gap(v);
    assert v[k..][1..] == v[k + 1..];
    if v[k] == ',' {
      ParsedMembers(v[k + 1..], ms[1..], rest);
    }
    assert MembersAfter(v, ms, rest);
    MembersBegin(t, v, ms, rest);
  }

  lemma MembersBegin(t: string, v: string, ms: seq<Member>, rest: string)
    requires ms != [] && MemberAt(t, ms[0], v) && MembersAfter(v, ms, rest)
    ensures MembersAt(t, ms, rest)
  {
    hide MemberAt, MembersAfter;
  }

  // ---- What is spelled is parsed ---------------------------------------------------------

  // A value starts with a character that is no white space and closes nothing.
  lemma ValueStarts(t: string, j: Json, rest: string)
    requires ValueAt(t, j, rest)
    ensures t != [] && t[0] as int > 32 && t[0] != ']' && t[0] != '}'
  {
    hide ItemsAt, MembersAt, Denotes, Inner;
    if j.Num? {
      var neg, zero, ds :| NumberTo(t, neg, zero, ds, j.n, rest);
      NumberReads(t, neg, zero, ds, j.n, rest);
    }
  }

  lemma ItemsStart(t: string, items: seq<Json>, rest: string)
    requires items != [] && ItemsAt(t, items, rest)
    ensures Skip(t) != [] && Skip(t)[0] != ']'
  {
    hide ValueAt, ItemsAfter;
    var n, v :| 0 <= n <= |t| && Blank(t[..n]) && ValueAt(t[n..], items[0], v) && ItemsAfter(v, items, rest);
    ValueStarts(t[n..], items[0], v);
    GapIs(t, n);
  }

  lemma MemberStarts(t: string, m: Member, rest: string)
    requires MemberAt(t, m, rest)
    ensures Skip(t) != [] && Skip(t)[0] == '\"'
  {
    hide ColonAt, Denotes, Inner;
    var n, u :| 0 <= n <= |t| && Blank(t[..n]) && StringAt(t[n..], m.key, u) && ColonAt(u, m, rest);
    GapIs(t, n);
  }

  lemma {:induction false} SpelledValue(t: string, j: Json, rest: string)
    requires ValueAt(t, j, rest)
    ensures ParseValue(t) == Done(j, rest)
    decreases j, 1
  {
    match j
    case Null => assert t[4..] == rest;
    case False => FalseReads(rest);
    case True => TrueReads(rest);
    case Num(n) => SpelledNumber(t, n, rest);
    case Str(s) => SpelledString(t, s, rest);
    case Arr(items) =>
      var n :| 1 <= n <= |t| && ArrayTo(t, n, items, rest);
      SpelledArray(t, n, items, rest);
    case Obj(ms) =>
      var n :| 1 <= n <= |t| && ObjectTo(t, n, ms, rest);
      SpelledObject(t, n, ms, rest);
  }

  lemma SpelledNumber(t: string, n: int, rest: string)
    requires NumberAt(t, n, rest)
    ensures ParseValue(t) == Done(Num(n), rest)
  {
    hide ParseNumber, NumberTo;
    var neg, zero, ds :| NumberTo(t, neg, zero, ds, n, rest);
    NumberReads(t, neg, zero, ds, n, rest);
  }

  lemma SpelledString(t: string, s: string, rest: string)
    requires StringAt(t, s, rest)
    ensures ParseValue(t) == Done(Str(s), rest)
  {
    StringExactly(t, s, rest);
    hide ParseString, Denotes, Inner;
  }

  lemma {:induction false} SpelledArray(t: string, n: nat, items: seq<Json>, rest: string)
    requires 1 <= n <= |t| && ArrayTo(t, n, items, rest)
    ensures ParseValue(t) == Done(Arr(items), rest)
    decreases items, 2
  {
    hide ParseItems, ItemsAt;
    var u := t[1..];
    assert u[n - 1..] == t[n..] && u[..n - 1] == t[1..n];
    if items == [] {
      GapIs(u, n - 1);
      assert t[n..][1..] == rest;
    } else {
      GapSkips(u, n - 1);
      ItemsStart(t[n..], items, rest);
      SpelledItems(t[n..], items, rest);
      ItemsSkip(t[n..]);
    }
  }

  lemma ItemsSkip(t: string)
    ensures ParseItems(Skip(t)) == ParseItems(t)
  {
    hide ParseValue;
    SkipTwice(t);
  }

  lemma {:induction false} SpelledItems(t: string, items: seq<Json>, rest: string)
    requires items != [] && ItemsAt(t, items, rest)
    ensures ParseItems(t) == Done(items, rest)
    decreases items, 1
  {
    hide ParseValue, ValueAt, ItemsAt, ItemsAfter;
    var n, v := FirstItem(t, items, rest);
    ValueStarts(t[n..], items[0], v);
    GapIs(t, n);
    SpelledValue(t[n..], items[0], v);
    var k := AfterItem(v, items, rest);
    GapIs(v, k);
    assert v[k..][0] == v[k] && v[k..][1..] == v[k + 1..];
    if |items| == 1 {
      assert [items[0]] == items;
    } else {
      SpelledItems(v[k + 1..], items[1..], rest);
      assert [items[0]] + items[1..] == items;
    }
  }

  lemma FirstItem(t: string, items: seq<Json>, rest: string) returns (n: nat, v: string)
    requires items != [] && ItemsAt(t, items, rest)
    ensures n <= |t| && Blank(t[..n]) && ValueAt(t[n..], items[0], v) && ItemsAfter(v, items, rest)
  {
    hide ValueAt, ItemsAfter;
    n, v :| 0 <= n <= |t| && Blank(t[..n]) && ValueAt(t[n..], items[0], v) && ItemsAfter(v, items, rest);
  }

  lemma AfterItem(v: string, items: seq<Json>, rest: string) returns (k: nat)
    requires items != [] && ItemsAfter(v, items, rest)
    ensures k < |v| && Blank(v[..k])
    ensures if |items| == 1 then v[k] == ']' && rest == v[k + 1..]
            else v[k] == ',' && ItemsAt(v[k + 1..], items[1..], rest)
  {
    hide ItemsAt;
    k :| 0 <= k < |v| && Blank(v[..k])
         && if |items| == 1 then v[k] == ']' && rest == v[k + 1..]
            else v[k] == ',' && ItemsAt(v[k + 1..], items[1..], rest);
  }

  lemma {:induction false} SpelledObject(t: string, n: nat, ms: seq<Member>, rest: string)
    requires 1 <= n <= |t| && ObjectTo(t, n, ms, rest)
    ensures ParseValue(t) == Done(Obj(ms), rest)
    decreases ms, 3
  {
    hide ParseMembers, MembersAt;
    var u := t[1..];
    assert u[n - 1..] == t[n..] && u[..n - 1] == t[1..n];
    if ms == [] {
      GapIs(u, n - 1);
      assert t[n..][1..] == rest;
    } else {
      GapSkips(u, n - 1);
      SpelledMembers(t[n..], ms, rest);
      MembersSkip(t[n..]);
    }
  }

  lemma {:induction false} SpelledMembers(t: string, ms: seq<Member>, rest: string)
    requires ms != [] && MembersAt(t, ms, rest)
    ensures ParseMembers(t) == Done(ms, rest) && Skip(t) != [] && Skip(t)[0] == '\"'
    decreases ms, 1
  {
    hide ParseMember, MemberAt, MembersAt, MembersAfter;
    var v := FirstMember(t, ms, rest);
    MemberStarts(t, ms[0], v);
    SpelledMember(t, ms[0], v);
    var k := AfterMember(v, ms, rest);
    GapIs(v, k);
    assert v[k..][0] == v[k] && v[k..][1..] == v[k + 1..];
    if |ms| == 1 {
      assert [ms[0]] == ms;
    } else {
      SpelledMembers(v[k + 1..], ms[1..], rest);
      assert [ms[0]] + ms[1..] == ms;
    }
  }

  lemma FirstMember(t: string, ms: seq<Member>, rest: string) returns (v: string)
    requires ms != [] && MembersAt(t, ms, rest)
    ensures MemberAt(t, ms[0], v) && MembersAfter(v, ms, rest)
  {
    hide MemberAt, MembersAfter;
    v :| MemberAt(t, ms[0], v) && MembersAfter(v, ms, rest);
  }

  lemma AfterMember(v: string, ms: seq<Member>, rest: string) returns (k: nat)
    requires ms != [] && MembersAfter(v, ms, rest)
    ensures k < |v| && Blank(v[..k])
    ensures if |ms| == 1 then v[k] == '}' && rest == v[k + 1..] else v[k] == ',' && MembersAt(v[k + 1..], ms[1..], rest)
  {
    hide MembersAt;
    k :| 0 <= k < |v| && Blank(v[..k])
         && if |ms| == 1 then v[k] == '}' && rest == v[k + 1..]
            else v[k] == ',' && MembersAt(v[k + 1..], ms[1..], rest);
  }

  lemma {:induction false} SpelledMember(t: string, m: Member, rest: string)
    requires MemberAt(t, m, rest)
    ensures ParseMember(t) == Done(m, rest)
    decreases m, 2
  {
    hide ParseValue, ParseString, ValueAt, ColonAt, StringAt;
    var n, u :| 0 <= n <= |t| && Blank(t[..n]) && StringAt(t[n..], m.key, u) && ColonAt(u, m, rest);
    MemberStarts(t, m, rest);
    GapSkips(t, n);
    KeyHere(t[n..], m.key, u);
    StringExactly(t[n..], m.key, u);
    var k, i := ColonPlaces(u, m, rest);
    GapIs(u, k);
    assert u[k..][0] == ':' && u[k..][1..] == u[k + 1..];
    var w := u[k + 1..];
    assert w[i - k - 1..] == u[i..] && w[..i - k - 1] == u[k + 1..i];
    ValueStarts(u[i..], m.value, rest);
    GapIs(w, i - k - 1);
    SpelledValue(u[i..], m.value, rest);
  }

  lemma KeyHere(t: string, key: string, u: string)
    requires StringAt(t, key, u)
    ensures Skip(t) == t
  {
    hide Denotes, Inner;
  }

  lemma ColonPlaces(u: string, m: Member, rest: string) returns (k: nat, i: nat)
    requires ColonAt(u, m, rest)
    ensures k < i <= |u| && Blank(u[..k]) && u[k] == ':' && Blank(u[k + 1..i]) && ValueAt(u[i..], m.value, rest)
  {
    hide ValueAt;
    k, i :| 0 <= k < i <= |u| && Blank(u[..k]) && u[k] == ':' && Blank(u[k + 1..i]) && ValueAt(u[i..], m.value, rest);
  }

  /** The parser accepts exactly the grammar's texts, with exactly their trees,
      and leaves exactly what follows them. */
  lemma ParseExactly(t: string, j: Json, rest: string)
    ensures ParseValue(t) == Done(j, rest) <==> ValueAt(t, j, rest)
  {
    if ParseValue(t) == Done(j, rest) {
      ParsedValue(t, j, rest);
    }
    if ValueAt(t, j, rest) {
      SpelledValue(t, j, rest);
    }
  }

  // ---- Failures ----------------------------------------------------------------------------

  // The literal at the front is not accepted: it ends in a lone backslash, where no
  // position is reported, or does not spell anything.
  ghost predicate StringFails(t: string, at: Option<string>) {
    if t == [] || t[0] != '\"' then at == Some(t)
    else if forall e :: 0 <= e < |t| ==> !LiteralEndsAt(t[1..], e) then at == None
    else at == Some(t) && exists e :: 0 <= e < |t| && LiteralEndsAt(t[1..], e) && forall s :: !Denotes(t[1..][..e], s)
  }

  predicate LiteralEndsAt(body: string, e: nat) {
    e <= |body| && Inner(body[..e]) && (e < |body| ==> body[e] == '\"')
  }

  // No value starts here.
  predicate NoValue(t: string) {
    && !("null" <= t) && !("false" <= t) && !("true" <= t)
    && (t == [] || (t[0] != '\"' && t[0] != '-' && !Digit(t[0]) && t[0] != '[' && t[0] != '{'))
  }

  // Where a text that starts with no value is given up: at the value, key, comma or
  // colon that is not there.
  ghost predicate ValueFails(t: string, at: Option<string>)
    decreases |t|, 1
  {
    if NoValue(t) then at == Some(t)
    else if t[0] == '\"' then StringFails(t, at)
    else if t[0] == '[' then
      var v := t[1 + Gap(t[1..])..];
      (v == [] || v[0] != ']') && ItemsFail(v, at)
    else if t[0] == '{' then
      var v := t[1 + Gap(t[1..])..];
      (v == [] || v[0] != '}') && MembersFail(v, at)
    else false
  }

  ghost predicate ItemsFail(t: string, at: Option<string>)
    decreases |t|, 2
  {
    var u := t[Gap(t)..];
    || ValueFails(u, at)
    || exists x, v | ValueAt(u, x, v) && |v| < |t| :: AfterItemFails(v, at)
  }

  ghost predicate AfterItemFails(v: string, at: Option<string>)
    decreases |v|, 4
  {
    var s := v[Gap(v)..];
    if s != [] && s[0] == ',' then ItemsFail(s[1..], at) else (s == [] || s[0] != ']') && at == Some(s)
  }

  ghost predicate MemberFails(t: string, at: Option<string>)
    decreases |t|, 2
  {
    var u := t[Gap(t)..];
    || StringFails(u, at)
    || exists key, v | StringAt(u, key, v) && |v| < |t| :: AfterKeyFails(v, at)
  }

  ghost predicate AfterKeyFails(v: string, at: Option<string>)
    decreases |v|, 4
  {
    var s := v[Gap(v)..];
    if s != [] && s[0] == ':' then ValueFails(s[1..][Gap(s[1..])..], at) else at == Some(s)
  }

  ghost predicate MembersFail(t: string, at: Option<string>)
    decreases |t|, 3
  {
    || MemberFails(t, at)
    || exists m, v | MemberAt(t, m, v) && |v| < |t| :: AfterMemberFails(v, at)
  }

  ghost predicate AfterMemberFails(v: string, at: Option<string>)
    decreases |v|, 4
  {
    var s := v[Gap(v)..];
    if s != [] && s[0] == ',' then MembersFail(s[1..], at) else (s == [] || s[0] != '}') && at == Some(s)
  }

  lemma StringFailsExactly(t: string, at: Option<string>)
    ensures ParseString(t) == Fail(at) <==> StringFails(t, at)
  {
    hide ScanEnd, Inner, Decode, Denotes;
    if t != [] && t[0] == '\"' {
      var body, e := t[1..], ScanEnd(t[1..]);
      forall k: nat ensures LiteralEndsAt(body, k) <==> e == Some(k) {
        ScanExactly(body, k);
      }
      if e.Some? {
        assert LiteralEndsAt(body, e.value);
        forall s ensures Denotes(body[..e.value], s) <==> Decode(body[..e.value]) == Some(s) {
          DecodeExact(body[..e.value], s);
        }
      }
    }
  }

  /** When the parser gives up, and at which position: exactly where the grammar
      breaks off. */
  lemma {:induction false} FailsExactly(t: string, at: Option<string>)
    ensures ParseValue(t) == Fail(at) <==> ValueFails(t, at)
    decreases |t|, 1
  {
    hide ParseString, ParseNumber, ParseItems, ParseMembers, StringFails, ItemsFail, MembersFail, Skip;
    if NoValue(t) {
    } else if t[0] == '\"' {
      StringFailsExactly(t, at);
    } else if t[0] == '[' {
      assert t[1..][Gap(t[1..])..] == t[1 + Gap(t[1..])..];
      ItemsFailExactly(t[1 + Gap(t[1..])..], at);
    } else if t[0] == '{' {
      assert t[1..][Gap(t[1..])..] == t[1 + Gap(t[1..])..];
      MembersFailExactly(t[1 + Gap(t[1..])..], at);
    } else if t[0] == '-' || Digit(t[0]) {
      NumberNeverFails(t);
    }
  }

  lemma NumberNeverFails(t: string)
    requires t != [] && (t[0] == '-' || Digit(t[0]))
    ensures !ParseNumber(t).Fail?
  {
    hide ReadDigits;
  }

  lemma {:induction false} ItemsFailExactly(t: string, at: Option<string>)
    ensures ParseItems(t) == Fail(at) <==> ItemsFail(t, at)
    decreases |t|, 2
  {
    hide ParseValue, ValueFails, ValueAt, Skip;
    var u := t[Gap(t)..];
    FailsExactly(u, at);
    forall x, v ensures ValueAt(u, x, v) <==> ParseValue(u) == Done(x, v) {
      ParseExactly(u, x, v);
    }
    if ParseValue(u).Done? {
      var v := ParseValue(u).rest;
      var s := v[Gap(v)..];
      if s != [] {
        ItemsFailExactly(s[1..], at);
      }
    }
  }

  lemma {:induction false} MemberFailsExactly(t: string, at: Option<string>)
    ensures ParseMember(t) == Fail(at) <==> MemberFails(t, at)
    decreases |t|, 2
  {
    hide ParseValue, ParseString, ValueFails, StringFails, StringAt, Skip;
    var u := t[Gap(t)..];
    StringFailsExactly(u, at);
    forall x, v ensures StringAt(u, x, v) <==> ParseString(u) == Done(x, v) {
      StringExactly(u, x, v);
    }
    if ParseString(u).Done? {
      var v := ParseString(u).rest;
      var s := v[Gap(v)..];
      if s != [] {
        FailsExactly(s[1..][Gap(s[1..])..], at);
      }
    }
  }

  lemma {:induction false} MembersFailExactly(t: string, at: Option<string>)
    ensures ParseMembers(t) == Fail(at) <==> MembersFail(t, at)
    decreases |t|, 3
  {
    hide ParseMember, MemberFails, MemberAt, Skip;
    MemberFailsExactly(t, at);
    forall m, v ensures MemberAt(t, m, v) <==> ParseMember(t) == Done(m, v) {
      MemberExactly(t, m, v);
    }
    if ParseMember(t).Done? {
      var v := ParseMember(t).rest;
      var s := v[Gap(v)..];
      if s != [] {
        MembersFailExactly(s[1..], at);
      }
    }
  }

  lemma MemberExactly(t: string, m: Member, rest: string)
    ensures ParseMember(t) == Done(m, rest) <==> MemberAt(t, m, rest)
  {
    hide ParseMember, MemberAt;
    if ParseMember(t) == Done(m, rest) {
      ParsedMember(t, m, rest);
    }
    if MemberAt(t, m, rest) {
      SpelledMember(t, m, rest);
    }
  }

  // ---- Documents ---------------------------------------------------------------------------

  /** So a document has one tree, found past the white space at its front. */
  lemma DocumentExactly(t: string, j: Json, rest: string)
    ensures Parse(t) == Done(j, rest) <==> exists n :: 0 <= n <= |t| && Blank(t[..n]) && ValueAt(t[n..], j, rest)
  {
    hide ParseValue, ValueAt;
    ParseExactly(Skip(t), j, rest);
    var n := Gap(t);
    if Parse(t) == Done(j, rest) {
      assert ValueAt(t[n..], j, rest);
    }
    if exists n :: 0 <= n <= |t| && Blank(t[..n]) && ValueAt(t[n..], j, rest) {
      var n :| 0 <= n <= |t| && Blank(t[..n]) && ValueAt(t[n..], j, rest);
      ValueStarts(t[n..], j, rest);
      GapIs(t, n);
    }
  }
}
