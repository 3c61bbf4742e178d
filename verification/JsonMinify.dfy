/** The in-place minifier: it removes white space and comments outside string
    literals, and turns the formatted print into the unformatted one. */
module JsonMinify {
  import opened Packets
  import opened JsonStrings
  import opened JsonText

  predicate White(c: char) {
    c == ' ' || c == '\t' || c == '\r' || c == '\n'
  }

  // From a line comment to the end of its line.
  function DropLine(t: string): (r: string)
    ensures |r| <= |t|
  {
    if t == [] || t[0] == '\n' then t else DropLine(t[1..])
  }

  // From a block comment to its end.
  function DropBlock(t: string): (r: string)
    ensures |r| <= |t| && (|r| == 0 || (|r| >= 2 && r[0] == '*' && r[1] == '/'))
  {
    if t == [] then t
    else if |t| >= 2 && t[0] == '*' && t[1] == '/' then t
    else DropBlock(t[1..])
  }

  // cJSON_Minify.  None: the cursor passes the end of the text, which happens on
  // a block comment or a string literal that is never closed.
  function Minify(t: string): Option<string>
    decreases |t|
  {
    if t == [] then Some([])
    else if White(t[0]) then Minify(t[1..])
    else if |t| >= 2 && t[0] == '/' && t[1] == '/' then Minify(DropLine(t[1..]))
    else if |t| >= 2 && t[0] == '/' && t[1] == '*' then
      var r := DropBlock(t[1..]);
      if r == [] then None else Minify(r[2..])
    else if t[0] == '\"' then
      var e := ScanEnd(t[1..]);
      if e.None? || e.value == |t| - 1 then None
      else Prepend(t[..e.value + 2], Minify(t[e.value + 2..]))
    else Prepend([t[0]], Minify(t[1..]))
  }

  // ---- When the cursor stays inside the text ---------------------------------------

  // Where a reader stands after some text: outside literals and comments, right
  // after a slash there, in a line comment, in a block comment, right after a star
  // in one, in a literal, or right after a backslash in one.
  datatype Place = Outside | Slash | Line | Block | Star | Literal | Escaping

  function Move(p: Place, c: char): Place {
    match p
    case Outside => if c == '/' then Slash else if c == '\"' then Literal else Outside
    case Slash => if c == '/' then Line else if c == '*' then Star else if c == '\"' then Literal else Outside
    case Line => if c == '\n' then Outside else Line
    case Block => if c == '*' then Star else Block
    case Star => if c == '/' then Outside else if c == '*' then Star else Block
    case Literal => if c == '\"' then Outside else if c == '\\' then Escaping else Literal
    case Escaping => Literal
  }

  function EndsIn(p: Place, t: string): Place
    decreases |t|
  {
    if t == [] then p else EndsIn(Move(p, t[0]), t[1..])
  }

  // What is kept of a character: everything in a literal, nothing in a comment, and
  // outside everything but white space; a slash waits for the next character.
  function Emit(p: Place, c: char): string {
    match p
    case Outside => if White(c) || c == '/' then "" else [c]
    case Slash => if c == '/' || c == '*' then "" else if White(c) then ['/'] else ['/', c]
    case Line => ""
    case Block => ""
    case Star => ""
    case Literal => [c]
    case Escaping => [c]
  }

  function Kept(p: Place, t: string): string
    decreases |t|
  {
    if t == [] then if p.Slash? then ['/'] else []
    else Emit(p, t[0]) + Kept(Move(p, t[0]), t[1..])
  }

  // Every literal and every block comment of the text is closed.
  predicate AllClosed(t: string) {
    var p := EndsIn(Outside, t);
    p.Outside? || p.Slash? || p.Line?
  }

  lemma {:induction false} LineEnds(t: string)
    ensures if DropLine(t) == [] then EndsIn(Line, t).Line? else EndsIn(Line, t) == EndsIn(Outside, DropLine(t))
    ensures Kept(Line, t) == Kept(Outside, DropLine(t))
  {
    if t != [] && t[0] != '\n' {
      LineEnds(t[1..]);
    }
  }

  lemma {:induction false} BlockEnds(t: string)
    ensures if DropBlock(t) == [] then EndsIn(Block, t).Block? || EndsIn(Block, t).Star?
            else EndsIn(Block, t) == EndsIn(Outside, DropBlock(t)[2..])
                 && Kept(Block, t) == Kept(Outside, DropBlock(t)[2..])
  {
    if t != [] {
      BlockEnds(t[1..]);
      if |t| >= 2 {
        assert t[1..][1..] == t[2..];
        assert EndsIn(Block, t) == EndsIn(Move(Move(Block, t[0]), t[1]), t[2..]);
        assert Kept(Block, t) == Kept(Move(Block, t[0]), t[1..]) == Kept(Move(Move(Block, t[0]), t[1]), t[2..]);
        assert Kept(Block, t[1..]) == Kept(Move(Block, t[1]), t[2..]);
      }
    }
  }

  function Shift(e: Option<nat>, k: nat): Option<nat> {
    if e.None? then None else Some(e.value + k)
  }

  // One character of a literal, and an escaped pair.
  lemma LiteralPlain(t: string)
    requires t != [] && t[0] != '\"' && t[0] != '\\'
    ensures EndsIn(Literal, t) == EndsIn(Literal, t[1..]) && Kept(Literal, t) == t[..1] + Kept(Literal, t[1..])
    ensures ScanEnd(t) == Shift(ScanEnd(t[1..]), 1)
  {
  }

  lemma LiteralEscaped(t: string)
    requires |t| >= 2 && t[0] == '\\'
    ensures EndsIn(Literal, t) == EndsIn(Literal, t[2..]) && Kept(Literal, t) == t[..2] + Kept(Literal, t[2..])
    ensures ScanEnd(t) == Shift(ScanEnd(t[2..]), 2)
  {
    assert t[1..][1..] == t[2..];
    assert Kept(Literal, t) == [t[0]] + Kept(Escaping, t[1..]);
    assert Kept(Escaping, t[1..]) == [t[1]] + Kept(Literal, t[2..]);
  }

  lemma LiteralStops(t: string)
    requires t == [] || t[0] == '\"' || t == ['\\']
    ensures ScanEnd(t) == if t == ['\\'] then None else Some(0)
    ensures t == [] || t == ['\\'] ==> EndsIn(Literal, t).Literal? || EndsIn(Literal, t).Escaping?
    ensures t != [] && t[0] == '\"' ==>
              EndsIn(Literal, t) == EndsIn(Outside, t[1..]) && Kept(Literal, t) == t[..1] + Kept(Outside, t[1..])
  {
    assert t == ['\\'] ==> EndsIn(Literal, t) == EndsIn(Escaping, t[1..]) == Escaping;
  }

  lemma Slices(t: string, k: nat, e: nat)
    requires k + e <= |t|
    ensures t[k..][e..] == t[k + e..] && t[..k] + t[k..][..e] == t[..k + e]
  {
  }

  lemma {:induction false} LiteralEnds(t: string)
    ensures if ScanEnd(t).None? || ScanEnd(t).value == |t|
            then EndsIn(Literal, t).Literal? || EndsIn(Literal, t).Escaping?
            else EndsIn(Literal, t) == EndsIn(Outside, t[ScanEnd(t).value + 1..])
                 && Kept(Literal, t) == t[..ScanEnd(t).value + 1] + Kept(Outside, t[ScanEnd(t).value + 1..])
    decreases |t|
  {
    hide EndsIn, Kept, ScanEnd;
    if t == [] || t[0] == '\"' || (t[0] == '\\' && |t| == 1) {
      LiteralStops(t);
    } else {
      var k := if t[0] == '\\' then 2 else 1;
      if k == 2 {
        LiteralEscaped(t);
      } else {
        LiteralPlain(t);
      }
      LiteralEnds(t[k..]);
      var e := ScanEnd(t[k..]);
      if e.Some? && e.value < |t| - k {
        Slices(t, k, e.value + 1);
        assert t[..k] + (t[k..][..e.value + 1] + Kept(Outside, t[k..][e.value + 1..]))
            == t[..k] + t[k..][..e.value + 1] + Kept(Outside, t[k..][e.value + 1..]);
      }
    }
  }

  /** The minifier stays inside the text exactly when every literal and every
      block comment is closed, and then leaves exactly what one reading keeps. */
  lemma {:induction false} MinifyExactly(t: string)
    ensures Minify(t) == if AllClosed(t) then Some(Kept(Outside, t)) else None
    decreases |t|
  {
    hide DropLine, DropBlock, ScanEnd;
    if t == [] {
    } else if |t| >= 2 && t[0] == '/' && (t[1] == '/' || t[1] == '*') {
      CommentExactly(t);
    } else if t[0] == '\"' {
      LiteralExactly(t);
    } else {
      MinifyExactly(t[1..]);
      OutsideStep(t);
      if t[0] == '/' {
        SlashAlone(t[1..]);
      }
    }
  }

  lemma {:induction false} LiteralExactly(t: string)
    requires t != [] && t[0] == '\"'
    ensures Minify(t) == if AllClosed(t) then Some(Kept(Outside, t)) else None
    decreases |t|, 0
  {
    OutsideStep(t);
    hide DropLine, DropBlock, ScanEnd, EndsIn, Kept;
    LiteralEnds(t[1..]);
    var e := ScanEnd(t[1..]);
    if e.Some? && e.value < |t| - 1 {
      var k := e.value + 2;
      assert t[1..][e.value + 1..] == t[k..];
      assert [t[0]] + t[1..][..e.value + 1] == t[..k];
      MinifyExactly(t[k..]);
      assert [t[0]] + (t[1..][..e.value + 1] + Kept(Outside, t[k..])) == t[..k] + Kept(Outside, t[k..]);
    }
  }

  lemma OutsideStep(t: string)
    requires t != []
    ensures EndsIn(Outside, t) == EndsIn(Move(Outside, t[0]), t[1..])
    ensures Kept(Outside, t) ==
            if White(t[0]) || t[0] == '/' then Kept(Move(Outside, t[0]), t[1..])
            else [t[0]] + Kept(Move(Outside, t[0]), t[1..])
  {
  }

  lemma SlashAlone(t: string)
    requires t == [] || (t[0] != '/' && t[0] != '*')
    ensures t == [] ==> EndsIn(Slash, t) == Slash && EndsIn(Outside, t) == Outside
    ensures t != [] ==> EndsIn(Slash, t) == EndsIn(Outside, t)
    ensures Kept(Slash, t) == ['/'] + Kept(Outside, t)
  {
    if t != [] {
      assert Move(Slash, t[0]) == Move(Outside, t[0]);
      assert Emit(Slash, t[0]) == ['/'] + Emit(Outside, t[0]);
    }
  }

  lemma {:induction false} CommentExactly(t: string)
    requires |t| >= 2 && t[0] == '/' && (t[1] == '/' || t[1] == '*')
    ensures Minify(t) == if AllClosed(t) then Some(Kept(Outside, t)) else None
    decreases |t|, 0
  {
    hide ScanEnd;
    assert EndsIn(Outside, t) == EndsIn(Move(Slash, t[1]), t[1..][1..]);
    assert Kept(Outside, t) == Kept(Slash, t[1..]) == Kept(Move(Slash, t[1]), t[1..][1..]);
    if t[1] == '/' {
      LineEnds(t[1..]);
      assert EndsIn(Line, t[1..]) == EndsIn(Line, t[1..][1..]);
      assert Kept(Line, t[1..]) == Kept(Line, t[1..][1..]);
      MinifyExactly(DropLine(t[1..]));
    } else {
      BlockEnds(t[1..]);
      assert EndsIn(Block, t[1..]) == EndsIn(Star, t[1..][1..]);
      assert Kept(Block, t[1..]) == Kept(Star, t[1..][1..]);
      var r := DropBlock(t[1..]);
      if r != [] {
        MinifyExactly(r[2..]);
      }
    }
  }

  // Characters that are copied whatever follows.
  predicate Plain(x: string) {
    forall i | 0 <= i < |x| :: !White(x[i]) && x[i] != '/' && x[i] != '\"'
  }

  predicate AllWhite(w: string) {
    forall i | 0 <= i < |w| :: White(w[i])
  }

  lemma {:induction false} PlainCopied(x: string, post: string)
    requires Plain(x)
    ensures Minify(x + post) == Prepend(x, Minify(post))
    decreases |x|
  {
    if x == [] {
      assert x + post == post;
      PrependNothing(Minify(post));
    } else {
      PlainCopied(x[1..], post);
      assert (x + post)[1..] == x[1..] + post;
      PrependTwice([x[0]], x[1..], Minify(post));
      assert [x[0]] + x[1..] == x;
    }
  }

  lemma {:induction false} WhiteDropped(w: string, post: string)
    requires AllWhite(w)
    ensures Minify(w + post) == Minify(post)
    decreases |w|
  {
    if w == [] {
      assert w + post == post;
    } else {
      WhiteDropped(w[1..], post);
      assert (w + post)[1..] == w[1..] + post;
    }
  }

  lemma QuoteCopied(s: string, post: string)
    requires NulFree(s)
    ensures Minify(Quote(s) + post) == Prepend(Quote(s), Minify(post))
  {
    hide EscapeChar, Escape, Decode, ScanEnd;
    var t, n := Quote(s) + post, |Escape(s)|;
    EscapeReads(s, post);
    assert t[0] == '\"' && t[1..] == Escape(s) + ['\"'] + post;
    assert t[..n + 2] == Quote(s) && t[n + 2..] == post;
  }

  // ---- The formatted print -----------------------------------------------------------

  // Minifying `t` leaves `r`, whatever follows.
  ghost predicate Becomes(t: string, r: string) {
    forall post :: Minifies(t, r, post)
  }

  predicate Minifies(t: string, r: string, post: string) {
    Minify(t + post) == Prepend(r, Minify(post))
  }

  lemma Then(t: string, r: string, t': string, r': string)
    requires Becomes(t, r) && Becomes(t', r')
    ensures Becomes(t + t', r + r')
  {
    forall post ensures Minifies(t + t', r + r', post) {
      assert Minifies(t, r, t' + post) && Minifies(t', r', post);
      assert t + t' + post == t + (t' + post);
      PrependTwice(r, r', Minify(post));
    }
  }

  lemma PlainBecomes(x: string)
    requires Plain(x)
    ensures Becomes(x, x)
  {
    forall post ensures Minifies(x, x, post) {
      PlainCopied(x, post);
    }
  }

  lemma WhiteBecomes(w: string)
    requires AllWhite(w)
    ensures Becomes(w, [])
  {
    forall post ensures Minifies(w, [], post) {
      WhiteDropped(w, post);
      PrependNothing(Minify(post));
    }
  }

  lemma QuoteBecomes(s: string)
    requires NulFree(s)
    ensures Becomes(Quote(s), Quote(s))
  {
    forall post ensures Minifies(Quote(s), Quote(s), post) {
      QuoteCopied(s, post);
    }
  }

  lemma {:induction false} PrintBecomes(j: Json, depth: nat)
    requires Valid(j)
    ensures Becomes(Print(j, depth, true), Print(j, depth, false))
    decreases j, 1
  {
    hide Becomes, PrintItems, PrintMembers, Minify, Quote;
    match j
    case Null => PlainBecomes("null");
    case False => PlainBecomes("false");
    case True => PlainBecomes("true");
    case Num(n) => PlainBecomes(PrintNum(n));
    case Str(s) => QuoteBecomes(s);
    case Arr(items) => ArrayBecomes(items, depth);
    case Obj(ms) => ObjectBecomes(ms, depth);
  }

  lemma {:induction false} ArrayBecomes(items: seq<Json>, depth: nat)
    requires AllValid(items)
    ensures Becomes(Print(Arr(items), depth, true), Print(Arr(items), depth, false))
    decreases items, 2
  {
    hide Becomes, PrintItems;
    if items == [] {
      PlainBecomes("[]");
    } else {
      var (t, r) := (PrintItems(items, depth + 1, true), PrintItems(items, depth + 1, false));
      ItemsBecome(items, depth + 1);
      PlainBecomes("[");
      PlainBecomes("]");
      Then("[", "[", t, r);
      Then("[" + t, "[" + r, "]", "]");
    }
  }

  lemma {:induction false} ItemsBecome(items: seq<Json>, depth: nat)
    requires AllValid(items) && items != []
    ensures Becomes(PrintItems(items, depth, true), PrintItems(items, depth, false))
    decreases items, 1
  {
    hide Becomes, Print;
    var (t, r) := (Print(items[0], depth, true), Print(items[0], depth, false));
    PrintBecomes(items[0], depth);
    if |items| > 1 {
      ItemsBecome(items[1..], depth);
      PlainBecomes(",");
      WhiteBecomes(" ");
      Then(t, r, ",", ",");
      Then(t + ",", r + ",", " ", []);
      Then(t + "," + " ", r + "," + [], PrintItems(items[1..], depth, true), PrintItems(items[1..], depth, false));
    }
  }

  lemma {:induction false} MemberBecomes(m: Member, depth: nat)
    requires NulFree(m.key) && Valid(m.value)
    ensures Becomes(PrintMember(m, depth, true), PrintMember(m, depth, false))
    decreases m, 1
  {
    hide Becomes, Print, Quote;
    var (w, k) := (Tabs(depth), Quote(m.key));
    PrintBecomes(m.value, depth);
    WhiteBecomes(w);
    QuoteBecomes(m.key);
    PlainBecomes(":");
    WhiteBecomes("\t");
    Then(w, [], k, k);
    Then(w + k, [] + k, ":", ":");
    Then(w + k + ":", [] + k + ":", "\t", []);
    Then(w + k + ":" + "\t", [] + k + ":" + [], Print(m.value, depth, true), Print(m.value, depth, false));
  }

  lemma {:induction false} MembersBecome(ms: seq<Member>, depth: nat)
    requires AllMembersValid(ms) && ms != []
    ensures Becomes(PrintMembers(ms, depth, true), PrintMembers(ms, depth, false))
    decreases ms, 1
  {
    hide Becomes, PrintMember;
    var (t, r) := (PrintMember(ms[0], depth, true), PrintMember(ms[0], depth, false));
    MemberBecomes(ms[0], depth);
    WhiteBecomes("\n");
    if |ms| == 1 {
      Then(t, r, "\n", []);
    } else {
      MembersBecome(ms[1..], depth);
      PlainBecomes(",");
      Then(t, r, ",", ",");
      Then(t + ",", r + ",", "\n", []);
      Then(t + "," + "\n", r + "," + [], PrintMembers(ms[1..], depth, true), PrintMembers(ms[1..], depth, false));
    }
  }

  lemma {:induction false} ObjectBecomes(ms: seq<Member>, depth: nat)
    requires AllMembersValid(ms)
    ensures Becomes(Print(Obj(ms), depth, true), Print(Obj(ms), depth, false))
    decreases ms, 2
  {
    hide Becomes, PrintMembers;
    PlainBecomes("{");
    PlainBecomes("}");
    if ms == [] {
      var w := "\n" + Tabs(depth);
      WhiteBecomes(w);
      Then("{", "{", w, []);
      Then("{" + w, "{" + [], "}", "}");
    } else {
      var (t, r) := (PrintMembers(ms, depth + 1, true), PrintMembers(ms, depth + 1, false));
      MembersBecome(ms, depth + 1);
      WhiteBecomes("\n");
      WhiteBecomes(Tabs(depth));
      Then("{", "{", "\n", []);
      Then("{" + "\n", "{" + [], t, r);
      Then("{" + "\n" + t, "{" + [] + r, Tabs(depth), []);
      Then("{" + "\n" + t + Tabs(depth), "{" + [] + r + [], "}", "}");
    }
  }

  /** Minifying the formatted print of any tree gives its unformatted print. */
  lemma MinifyPrint(j: Json)
    requires Valid(j)
    ensures Minify(Print(j, 0, true)) == Some(Print(j, 0, false))
  {
    PrintBecomes(j, 0);
    var t, r := Print(j, 0, true), Print(j, 0, false);
    assert Minifies(t, r, []);
    assert t + [] == t && r + [] == r;
  }

  // ---- In place ------------------------------------------------------------------------

  // The rest of the text is still to be read.
  predicate Unread(json: array<char>, t: string, at: nat)
    reads json
  {
    at <= |t| < json.Length && json[at..|t|] == t[at..] && json[|t|] == NUL && NulFree(t)
  }

  /** The minifier over a NUL-terminated buffer, with a read and a write cursor in
      the same array.  `ok` is false when the source would leave the text: a literal
      or a block comment is not closed. */
  method MinifyInPlace(json: array<char>, n: nat) returns (ok: bool, len: nat)
    requires n < json.Length && json[n] == NUL && NulFree(json[..n])
    modifies json
    ensures ok <==> AllClosed(old(json[..n]))
    ensures ok ==> len <= n && json[len] == NUL && json[..len] == Kept(Outside, old(json[..n]))
  {
    hide Minify, AllClosed, Kept;
    ghost var t := json[..n];
    var at: nat := 0;
    MinifyExactly(t);
    ok, len := true, 0;
    PrependNothing(Minify(t));
    assert t[0..] == t;
    while json[at] != NUL
      invariant len <= at && |t| == n && Unread(json, t, at)
      invariant Minify(t) == Prepend(json[..len], Minify(t[at..]))
      decreases n - at
    {
      ghost var (done, from) := (json[..len], at);
      ghost var copied;
      ok, at, len, copied := StepOne(json, n, at, len, t);
      if !ok {
        return;
      }
      PrependTwice(done, copied, Minify(t[at..]));
    }
    assert json[..len] + [] == json[..len];
    EndOfText(json, t, at);
    json[len] := NUL;
  }

  lemma EndOfText(json: array<char>, t: string, at: nat)
    requires Unread(json, t, at)
    ensures json[at] == NUL <==> at == |t|
    ensures at == |t| ==> Minify(t[at..]) == Some([])
  {
    if at < |t| {
      Ahead(json, t, at);
    }
  }

  // One turn of the minifier's loop.
  method StepOne(json: array<char>, n: nat, at: nat, len: nat, ghost t: string)
    returns (ok: bool, at': nat, len': nat, ghost copied: string)
    requires len <= at && |t| == n && Unread(json, t, at) && json[at] != NUL
    modifies json
    ensures !ok ==> Minify(t[at..]).None?
    ensures ok ==> len' <= at' && at < at' && Unread(json, t, at') && json[..len'] == old(json[..len]) + copied
                   && Minify(t[at..]) == Prepend(copied, Minify(t[at'..]))
  {
    hide ScanEnd, DropLine, DropBlock;
    ok, at', len', copied := true, at, len, [];
    EndOfText(json, t, at);
    Ahead(json, t, at);
    if White(json[at]) {
      PrependNothing(Minify(t[at + 1..]));
      at' := at + 1;
    } else if json[at] == '/' && json[at + 1] == '/' {
      at' := SkipLine(json, n, at + 1, t);
      PrependNothing(Minify(t[at'..]));
    } else if json[at] == '/' && json[at + 1] == '*' {
      at' := SkipBlock(json, n, at + 1, t);
      if json[at'] == NUL {
        ok := false;
        return;
      }
      assert t[at'..][2..] == t[at' + 2..];
      at' := at' + 2;
      PrependNothing(Minify(t[at'..]));
    } else if json[at] == '\"' {
      ok, at', len' := CopyLiteral(json, n, at, len, t);
      if ok {
        copied := t[at..at'];
      }
    } else {
      CopyChar(json, at, len, t);
      at', len', copied := at + 1, len + 1, [t[at]];
    }
  }

  // One character from the read to the write cursor.
  method CopyChar(json: array<char>, at: nat, len: nat, ghost t: string)
    requires len <= at < |t| && Unread(json, t, at)
    modifies json
    ensures Unread(json, t, at + 1) && json[..len + 1] == old(json[..len]) + [t[at]]
  {
    assert json[at] == json[at..|t|][0];
    assert json[at..|t|][1..] == json[at + 1..|t|] && t[at..][1..] == t[at + 1..];
    json[len] := json[at];
  }

  // What the read cursor sees.
  lemma Ahead(json: array<char>, t: string, at: nat)
    requires Unread(json, t, at) && at < |t|
    ensures t[at..] != [] && t[at..][0] == t[at] == json[at] && t[at..][1..] == t[at + 1..] && json[at] != NUL
    ensures at + 1 < |t| ==> json[at + 1] == t[at + 1] == t[at..][1]
    ensures at + 1 == |t| ==> json[at + 1] == NUL
  {
    assert json[at] == json[at..|t|][0];
    if at + 1 < |t| {
      assert json[at + 1] == json[at..|t|][1];
    }
  }

  method SkipLine(json: array<char>, n: nat, from: nat, ghost t: string) returns (at: nat)
    requires from <= n < json.Length && |t| == n && json[from..n] == t[from..] && json[n] == NUL && NulFree(t)
    ensures from <= at <= n && t[at..] == DropLine(t[from..])
  {
    at := from;
    while json[at] != NUL && json[at] != '\n'
      invariant from <= at <= n && DropLine(t[at..]) == DropLine(t[from..])
      decreases n - at
    {
      assert json[at] == json[from..n][at - from] == t[from..][at - from];
      at := at + 1;
    }
    if at < n {
      assert json[at] == json[from..n][at - from] == t[from..][at - from];
    }
  }

  method SkipBlock(json: array<char>, n: nat, from: nat, ghost t: string) returns (at: nat)
    requires from <= n < json.Length && |t| == n && json[from..n] == t[from..] && json[n] == NUL && NulFree(t)
    ensures from <= at <= n && t[at..] == DropBlock(t[from..])
  {
    at := from;
    while json[at] != NUL && !(json[at] == '*' && json[at + 1] == '/')
      invariant from <= at <= n && DropBlock(t[at..]) == DropBlock(t[from..])
      decreases n - at
    {
      assert json[at] == json[from..n][at - from] == t[from..][at - from];
      if at + 1 < n {
        assert json[at + 1] == json[from..n][at + 1 - from] == t[from..][at + 1 - from];
      }
      at := at + 1;
    }
    if at < n {
      assert json[at] == json[from..n][at - from] == t[from..][at - from];
      if at + 1 < n {
        assert json[at + 1] == json[from..n][at + 1 - from] == t[from..][at + 1 - from];
      }
    }
  }

  // Copies a literal from `at`, quotes included, to the write cursor.
  method CopyLiteral(json: array<char>, n: nat, at: nat, len: nat, ghost t: string)
    returns (ok: bool, at': nat, len': nat)
    requires len <= at < n < json.Length && |t| == n && Unread(json, t, at) && t[at] == '\"'
    modifies json
    ensures !ok ==> Minify(t[at..]).None?
    ensures ok ==> len' <= at' <= n && at < at' && Unread(json, t, at')
                   && json[..len'] == old(json[..len]) + t[at..at']
                   && Minify(t[at..]) == Prepend(t[at..at'], Minify(t[at'..]))
  {
    hide Minify, ScanEnd, Unread, NulFree;
    ghost var done := json[..len];
    CopyChar(json, at, len, t);
    assert t[at..at + 1] == [t[at]];
    ok, at', len' := CopyUnits(json, n, at + 1, len + 1, t);
    if !ok {
      LiteralOpen(t, at);
      return;
    }
    Longer(done, t, at, at + 1, at');
    CopyChar(json, at', len', t);
    assert t[at'..at' + 1] == [t[at']];
    Longer(done, t, at, at', at' + 1);
    at', len' := at' + 1, len' + 1;
    LiteralClosed(t, at, at');
  }

  // The inside of a literal, up to its closing quote.
  method CopyUnits(json: array<char>, n: nat, at: nat, len: nat, ghost t: string)
    returns (ok: bool, at': nat, len': nat)
    requires len <= at <= n < json.Length && |t| == n && Unread(json, t, at)
    modifies json
    ensures !ok ==> ScanEnd(t[at..]).None? || ScanEnd(t[at..]).value == n - at
    ensures ok ==> len' <= at' < n && at <= at' && Unread(json, t, at') && t[at'] == '\"'
                   && json[..len'] == old(json[..len]) + t[at..at'] && ScanEnd(t[at..]) == Some(at' - at)
  {
    hide Minify, ScanEnd, Unread;
    ghost var done := json[..len];
    ok, at', len' := true, at, len;
    ShiftNone(ScanEnd(t[at..]));
    while json[at'] != NUL && json[at'] != '\"'
      invariant len' <= at' <= n && at <= at' && Unread(json, t, at')
      invariant json[..len'] == done + t[at..at']
      invariant ScanEnd(t[at..]) == Shift(ScanEnd(t[at'..]), at' - at)
      decreases n - at'
    {
      ghost var from := at';
      ok, at', len' := CopyUnit(json, at', len', t);
      if !ok {
        return;
      }
      Longer(done, t, at, from, at');
    }
    EndOfText(json, t, at');
    if json[at'] == NUL {
      ScanHere(t, at');
      ok := false;
      return;
    }
    Ahead(json, t, at');
    ScanHere(t, at');
  }

  lemma Longer(done: string, t: string, a: nat, b: nat, c: nat)
    requires a <= b <= c <= |t|
    ensures done + t[a..b] + t[b..c] == done + t[a..c]
  {
    assert t[a..b] + t[b..c] == t[a..c];
  }

  lemma ShiftNone(e: Option<nat>)
    ensures Shift(e, 0) == e
  {
  }

  lemma ScanHere(t: string, at: nat)
    requires at <= |t| && (at == |t| || t[at] == '\"')
    ensures ScanEnd(t[at..]) == Some(0)
  {
  }

  // A character, or an escaped pair, inside a literal.
  method CopyUnit(json: array<char>, at: nat, len: nat, ghost t: string) returns (ok: bool, at': nat, len': nat)
    requires len <= at && Unread(json, t, at) && json[at] != NUL && json[at] != '\"'
    modifies json
    ensures !ok ==> ScanEnd(t[at..]).None?
    ensures ok ==> len' <= at' <= |t| && at < at' && Unread(json, t, at')
    ensures ok ==> json[..len'] == old(json[..len]) + t[at..at']
                   && ScanEnd(t[at..]) == Shift(ScanEnd(t[at'..]), at' - at)
  {
    ok, at', len' := true, at, len;
    EndOfText(json, t, at);
    Ahead(json, t, at);
    UnitScanned(t, at);
    hide Unread, ScanEnd;
    ghost var done := json[..len];
    if json[at] == '\\' {
      if json[at + 1] == NUL {
        ok := false;
        return;
      }
      CopyChar(json, at, len, t);
      at', len' := at + 1, len + 1;
    }
    CopyChar(json, at', len', t);
    at', len' := at' + 1, len' + 1;
    TwoChars(done, t, at);
  }

  lemma UnitScanned(t: string, at: nat)
    requires at < |t| && t[at] != '\"'
    ensures t[at] != '\\' ==> ScanEnd(t[at..]) == Shift(ScanEnd(t[at + 1..]), 1)
    ensures t[at] == '\\' && at + 1 == |t| ==> ScanEnd(t[at..]).None?
    ensures t[at] == '\\' && at + 1 < |t| ==> ScanEnd(t[at..]) == Shift(ScanEnd(t[at + 2..]), 2)
  {
    assert t[at..][1..] == t[at + 1..];
    if at + 1 < |t| {
      assert t[at..][2..] == t[at + 2..];
    }
  }

  lemma TwoChars(done: string, t: string, at: nat)
    requires at < |t|
    ensures done + [t[at]] == done + t[at..at + 1]
    ensures at + 1 < |t| ==> done + [t[at]] + [t[at + 1]] == done + t[at..at + 2]
  {
  }

  lemma LiteralOpen(t: string, at: nat)
    requires at < |t| && t[at] == '\"' && (ScanEnd(t[at + 1..]).None? || ScanEnd(t[at + 1..]).value == |t| - (at + 1))
    ensures Minify(t[at..]).None?
  {
    assert t[at..][1..] == t[at + 1..];
  }

  lemma LiteralClosed(t: string, at: nat, end: nat)
    requires at < |t| && t[at] == '\"' && at + 2 <= end <= |t| && ScanEnd(t[at + 1..]) == Some(end - 1 - (at + 1))
    ensures Minify(t[at..]) == Prepend(t[at..end], Minify(t[end..]))
  {
    hide ScanEnd;
    assert t[at..][1..] == t[at + 1..];
    assert t[at..][..end - at] == t[at..end] && t[at..][end - at..] == t[end..];
  }
}
