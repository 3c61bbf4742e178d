/** The printer that writes into one growing buffer. */
module JsonBuffer {
  import opened JsonStrings
  import opened JsonText
  import opened PowerOfTwo

  const LIMIT := 0x4000_0000
  // Room the source asks for beyond a value's own text: a number wants 21 characters.
  const SLACK := 21

  // ---- Printed text has no NUL -------------------------------------------------------

  lemma NulFreeJoin(a: string, b: string)
    ensures NulFree(a + b) <==> NulFree(a) && NulFree(b)
  {
    forall i | 0 <= i < |a| ensures a[i] == (a + b)[i] {
    }
    forall i | 0 <= i < |b| ensures b[i] == (a + b)[|a| + i] {
    }
  }

  lemma {:induction false} EscapeNulFree(s: string)
    ensures NulFree(Escape(s))
  {
    if s != [] {
      EscapeNulFree(s[1..]);
      NulFreeJoin(EscapeChar(s[0]), Escape(s[1..]));
    }
  }

  lemma QuoteNulFree(s: string)
    ensures NulFree(Quote(s))
  {
    EscapeNulFree(s);
  }

  lemma {:induction false} PrintNulFree(j: Json, depth: nat, fmt: bool)
    ensures NulFree(Print(j, depth, fmt))
    decreases j, 1
  {
    hide Quote, NulFree, PrintItems, PrintMembers;
    match j
    case Null => PlainNulFree("null");
    case False => PlainNulFree("false");
    case True => PlainNulFree("true");
    case Num(n) => PlainNulFree(PrintNum(n));
    case Str(s) => QuoteNulFree(s);
    case Arr(items) => ArrayNulFree(items, depth, fmt);
    case Obj(ms) => ObjectNulFree(ms, depth, fmt);
  }

  lemma {:induction false} ArrayNulFree(items: seq<Json>, depth: nat, fmt: bool)
    ensures NulFree(Print(Arr(items), depth, fmt))
    decreases items, 2
  {
    hide NulFree, PrintItems;
    if items == [] {
      PlainNulFree("[]");
    } else {
      ItemsNulFree(items, depth + 1, fmt);
      Wrap("[", PrintItems(items, depth + 1, fmt), "]");
    }
  }

  lemma {:induction false} ObjectNulFree(ms: seq<Member>, depth: nat, fmt: bool)
    ensures NulFree(Print(Obj(ms), depth, fmt))
    decreases ms, 2
  {
    hide NulFree, PrintMembers;
    if ms == [] {
      PlainNulFree(Fmt(fmt, "\n" + Tabs(depth)));
      Wrap("{", Fmt(fmt, "\n" + Tabs(depth)), "}");
    } else {
      var (w, x, z) := (Fmt(fmt, "\n"), PrintMembers(ms, depth + 1, fmt), Fmt(fmt, Tabs(depth)));
      MembersNulFree(ms, depth + 1, fmt);
      PlainNulFree(w);
      PlainNulFree(z);
      NulFreeJoin(w, x);
      NulFreeJoin(w + x, z);
      Wrap("{", w + x + z, "}");
      assert "{" + (w + x + z) + "}" == Print(Obj(ms), depth, fmt);
    }
  }

  lemma PlainNulFree(t: string)
    requires forall i | 0 <= i < |t| :: t[i] as int > 0
    ensures NulFree(t)
  {
  }

  lemma Wrap(a: string, t: string, b: string)
    requires |a| == 1 && |b| == 1 && a[0] != NUL && b[0] != NUL && NulFree(t)
    ensures NulFree(a + t + b)
  {
  }

  lemma {:induction false} ItemsNulFree(items: seq<Json>, depth: nat, fmt: bool)
    requires items != []
    ensures NulFree(PrintItems(items, depth, fmt))
    decreases items, 1
  {
    hide NulFree, Print;
    PrintNulFree(items[0], depth, fmt);
    if |items| > 1 {
      ItemsNulFree(items[1..], depth, fmt);
      PlainNulFree(",");
      PlainNulFree(Fmt(fmt, " "));
      NulFreeJoin(Print(items[0], depth, fmt), ",");
      NulFreeJoin(Print(items[0], depth, fmt) + ",", Fmt(fmt, " "));
      NulFreeJoin(Print(items[0], depth, fmt) + "," + Fmt(fmt, " "), PrintItems(items[1..], depth, fmt));
    }
  }

  lemma {:induction false} MembersNulFree(ms: seq<Member>, depth: nat, fmt: bool)
    requires ms != []
    ensures NulFree(PrintMembers(ms, depth, fmt))
    decreases ms, 1
  {
    hide NulFree, Print, Quote;
    var m := ms[0];
    PrintNulFree(m.value, depth, fmt);
    QuoteNulFree(m.key);
    PlainNulFree(Fmt(fmt, Tabs(depth)));
    PlainNulFree(":");
    PlainNulFree(Fmt(fmt, "\t"));
    PlainNulFree(Fmt(fmt, "\n"));
    PlainNulFree(",");
    NulFreeJoin(Fmt(fmt, Tabs(depth)), Quote(m.key));
    NulFreeJoin(Fmt(fmt, Tabs(depth)) + Quote(m.key), ":");
    NulFreeJoin(Fmt(fmt, Tabs(depth)) + Quote(m.key) + ":", Fmt(fmt, "\t"));
    NulFreeJoin(Fmt(fmt, Tabs(depth)) + Quote(m.key) + ":" + Fmt(fmt, "\t"), Print(m.value, depth, fmt));
    NulFreeJoin(PrintMember(m, depth, fmt), Fmt(fmt, "\n"));
    if |ms| > 1 {
      MembersNulFree(ms[1..], depth, fmt);
      NulFreeJoin(PrintMember(m, depth, fmt), ",");
      NulFreeJoin(PrintMember(m, depth, fmt) + ",", Fmt(fmt, "\n"));
      NulFreeJoin(PrintMember(m, depth, fmt) + "," + Fmt(fmt, "\n"), PrintMembers(ms[1..], depth, fmt));
    }
  }

  // ---- Pieces of text -----------------------------------------------------------------

  lemma {:induction false} DigitsFit(n: nat, k: nat)
    requires n < Ten(k) && k >= 1
    ensures |Digits(n)| <= k
    decreases k
  {
    if n >= 10 {
      DigitsFit(n / 10, k - 1);
    }
  }

  function Ten(k: nat): nat {
    if k == 0 then 1 else 10 * Ten(k - 1)
  }

  // A number and its NUL fit in the source's 21 characters.
  lemma NumFits(n: int)
    requires -INT_MAX - 1 <= n <= INT_MAX
    ensures |PrintNum(n)| + 1 <= SLACK && (n == 0 ==> |PrintNum(n)| == 1)
  {
    assert Ten(10) == 10000000000 by { assert Ten(5) == 100000; }
    DigitsFit(if n < 0 then -n else n, 10);
  }

  lemma ArrayText(items: seq<Json>, depth: nat, fmt: bool)
    ensures Print(Arr(items), depth, fmt) == if items == [] then "[]" else "[" + PrintItems(items, depth + 1, fmt) + "]"
  {
  }

  lemma {:induction false} ItemValid(items: seq<Json>, i: nat)
    requires AllValid(items) && i < |items|
    ensures Valid(items[i])
  {
    if i > 0 {
      ItemValid(items[1..], i - 1);
    }
  }

  lemma ItemText(items: seq<Json>, i: nat, depth: nat, fmt: bool)
    requires AllValid(items) && i < |items|
    ensures Valid(items[i])
    ensures PrintItems(items[i..], depth, fmt) ==
            Print(items[i], depth, fmt) +
            if i + 1 < |items| then (if fmt then ", " else ",") + PrintItems(items[i + 1..], depth, fmt) else []
  {
    hide Print;
    ItemValid(items, i);
    assert items[i..][1..] == items[i + 1..];
  }

  lemma NulFreeTail(before: string, j: Json, depth: nat, fmt: bool)
    ensures var all := before + Print(j, depth, fmt);
            NulFree(all[|before|..]) && |all| - |Print(j, depth, fmt)| == |before|
  {
    hide Print;
    PrintNulFree(j, depth, fmt);
    assert (before + Print(j, depth, fmt))[|before|..] == Print(j, depth, fmt);
  }

  lemma ObjectText(ms: seq<Member>, depth: nat, fmt: bool)
    ensures Print(Obj(ms), depth, fmt) ==
            if ms == [] then "{" + Fmt(fmt, "\n" + Tabs(depth)) + "}"
            else "{" + Fmt(fmt, "\n") + PrintMembers(ms, depth + 1, fmt) + (Fmt(fmt, Tabs(depth)) + "}")
  {
  }

  function KeyText(key: string, depth: nat, fmt: bool): string {
    Fmt(fmt, Tabs(depth)) + Quote(key) + (":" + Fmt(fmt, "\t"))
  }

  lemma {:induction false} MemberValid(ms: seq<Member>, i: nat)
    requires AllMembersValid(ms) && i < |ms|
    ensures NulFree(ms[i].key) && Valid(ms[i].value)
  {
    if i > 0 {
      MemberValid(ms[1..], i - 1);
    }
  }

  lemma MemberText(ms: seq<Member>, i: nat, depth: nat, fmt: bool)
    requires AllMembersValid(ms) && i < |ms|
    ensures NulFree(ms[i].key) && Valid(ms[i].value)
    ensures PrintMembers(ms[i..], depth, fmt) ==
            KeyText(ms[i].key, depth, fmt) + Print(ms[i].value, depth, fmt) +
            ((if i + 1 < |ms| then "," else []) + Fmt(fmt, "\n")) +
            if i + 1 < |ms| then PrintMembers(ms[i + 1..], depth, fmt) else []
  {
    hide Print, Quote, Fmt, Tabs, NulFree, Valid, AllMembersValid;
    MemberValid(ms, i);
    assert ms[i..][1..] == ms[i + 1..];
  }

  // The array holds this text as a C string.
  predicate CString(out: array<char>, text: string)
    reads out
  {
    |text| < out.Length && out[..|text|] == text && out[|text|] == NUL
  }

  // ---- The buffer --------------------------------------------------------------------

  class PrintBuffer {
    var buffer: array<char>
    var offset: nat

    constructor (prebuffer: nat)
      requires prebuffer >= 1
      ensures offset == 0 && buffer.Length == prebuffer && fresh(buffer)
    {
      buffer, offset := new char[prebuffer], 0;
    }

    /** ensure: room for `needed` more characters, growing to the least power of
        two that has it; everything already written stays. */
    method Ensure(needed: nat)
      requires offset <= buffer.Length && 1 <= offset + needed <= LIMIT
      modifies this`buffer
      ensures buffer == old(buffer) || fresh(buffer)
      ensures offset + needed <= buffer.Length && buffer[..offset] == old(buffer[..offset])
      ensures offset + needed > old(buffer.Length) ==>
                forall k: nat | offset + needed <= Pow2(k) :: buffer.Length <= Pow2(k)
    {
      if offset + needed <= buffer.Length {
        return;
      }
      Pow2gtExact(offset + needed);
      var newbuffer := new char[Pow2gt(offset + needed)];
      forall i | 0 <= i < buffer.Length {
        newbuffer[i] := buffer[i];
      }
      buffer := newbuffer;
    }

    // Text at the offset, terminated when `extra` asks for it; the offset stays.
    method Put(text: string, extra: nat)
      requires offset <= buffer.Length && 1 <= offset + |text| + extra <= LIMIT
      modifies this`buffer, buffer
      ensures buffer == old(buffer) || fresh(buffer)
      ensures offset + |text| + extra <= buffer.Length && buffer[..offset + |text|] == old(buffer[..offset]) + text
      ensures extra > 0 ==> buffer[offset + |text|] == NUL
    {
      Ensure(|text| + extra);
      forall i | 0 <= i < |text| {
        buffer[offset + i] := text[i];
      }
      if extra > 0 {
        buffer[offset + |text|] := NUL;
      }
    }

    // Text at the offset, which moves past it.
    method Append(text: string, extra: nat)
      requires offset <= buffer.Length && 1 <= offset + |text| + extra <= LIMIT
      modifies this, buffer
      ensures (buffer == old(buffer) || fresh(buffer)) && offset == old(offset) + |text|
      ensures offset + extra <= buffer.Length && buffer[..offset] == old(buffer[..offset]) + text
      ensures extra > 0 ==> buffer[offset] == NUL
    {
      Put(text, extra);
      offset := offset + |text|;
    }

    // `all` is everything written so far; the offset may lag behind inside its last `n` characters.
    ghost predicate Holds(all: string, n: nat)
      reads this, buffer
    {
      && |all| < buffer.Length && n <= |all| && |all| - n <= offset <= |all|
      && buffer[..|all|] == all && buffer[|all|] == NUL
    }

    /** update: the offset moves to the terminating NUL. */
    method Update(ghost all: string, ghost n: nat)
      requires Holds(all, n) && NulFree(all[|all| - n..])
      modifies this`offset
      ensures offset == |all|
    {
      while buffer[offset] != NUL
        invariant |all| - n <= offset <= |all|
        decreases |all| - offset
      {
        assert offset < |all|;
        offset := offset + 1;
      }
    }

    // A value's text at the offset; the offset may lag behind inside it.
    ghost predicate Wrote(before: string, text: string)
      reads this, buffer
    {
      Holds(before + text, |text|)
    }

    method PrintString(s: string)
      requires NulFree(s) && offset <= buffer.Length && offset + |Quote(s)| + 1 <= LIMIT
      modifies this`buffer, buffer
      ensures (buffer == old(buffer) || fresh(buffer)) && Wrote(old(buffer[..offset]), Quote(s))
    {
      var flag, len := StringNeeds(s);
      Ensure(len + 3);
      WriteQuoted(buffer, offset, s, flag);
    }

    /** print_value, print_array and print_object into the buffer. */
    method PrintValue(j: Json, depth: nat, fmt: bool)
      requires Valid(j) && offset <= buffer.Length && offset + |Print(j, depth, fmt)| + SLACK <= LIMIT
      modifies this, buffer
      ensures (buffer == old(buffer) || fresh(buffer)) && Wrote(old(buffer[..offset]), Print(j, depth, fmt))
      decreases j, 1
    {
      match j
      case Null => Put("null", 1);
      case False => Put("false", 1);
      case True => Put("true", 1);
      case Num(n) => PrintNumber(n);
      case Str(s) => PrintString(s);
      case Arr(items) => PrintArray(items, depth, fmt);
      case Obj(ms) => PrintObject(ms, depth, fmt);
    }

    method PrintNumber(n: int)
      requires -INT_MAX - 1 <= n <= INT_MAX && offset <= buffer.Length && offset + |PrintNum(n)| + SLACK <= LIMIT
      modifies this`buffer, buffer
      ensures (buffer == old(buffer) || fresh(buffer)) && Wrote(old(buffer[..offset]), PrintNum(n))
    {
      NumFits(n);
      if n == 0 {
        Ensure(2);
      } else {
        Ensure(SLACK);
      }
      Put(PrintNum(n), 1);
    }

    method PrintArray(items: seq<Json>, depth: nat, fmt: bool)
      requires AllValid(items) && offset <= buffer.Length && offset + |Print(Arr(items), depth, fmt)| + SLACK <= LIMIT
      modifies this, buffer
      ensures (buffer == old(buffer) || fresh(buffer)) && Wrote(old(buffer[..offset]), Print(Arr(items), depth, fmt))
      decreases items, 2
    {
      hide Print, PrintItems, AllValid;
      ArrayText(items, depth, fmt);
      if items == [] {
        Put("[]", 1);
        return;
      }
      ghost var (before, x) := (buffer[..offset], PrintItems(items, depth + 1, fmt));
      assert before + ("[" + x + "]") == before + "[" + x + "]";
      Append("[", 0);
      PrintItemsAll(items, depth + 1, fmt);
      Put("]", 1);
    }

    method PrintItemsAll(items: seq<Json>, depth: nat, fmt: bool)
      requires AllValid(items) && items != [] && offset <= buffer.Length
      requires offset + |PrintItems(items, depth, fmt)| + 1 + SLACK <= LIMIT
      modifies this, buffer
      ensures (buffer == old(buffer) || fresh(buffer)) && old(offset) <= offset <= buffer.Length
      ensures buffer[..offset] == old(buffer[..offset]) + PrintItems(items, depth, fmt)
      decreases items, 1, 1
    {
      hide Print, PrintItems, AllValid;
      ghost var all := buffer[..offset] + PrintItems(items, depth, fmt);
      assert items[0..] == items;
      for i := 0 to |items|
        invariant buffer == old(buffer) || fresh(buffer)
        invariant old(offset) <= offset <= buffer.Length
        invariant all == buffer[..offset] + if i < |items| then PrintItems(items[i..], depth, fmt) else []
      {
        PrintOneItem(items, i, depth, fmt);
      }
    }

    // One element and the comma after it.
    method PrintOneItem(items: seq<Json>, i: nat, depth: nat, fmt: bool)
      requires AllValid(items) && i < |items| && offset <= buffer.Length
      requires offset + |PrintItems(items[i..], depth, fmt)| + 1 + SLACK <= LIMIT
      modifies this, buffer
      ensures (buffer == old(buffer) || fresh(buffer)) && old(offset) <= offset <= buffer.Length
      ensures old(buffer[..offset]) + PrintItems(items[i..], depth, fmt) ==
              buffer[..offset] + if i + 1 < |items| then PrintItems(items[i + 1..], depth, fmt) else []
      decreases items, 1, 0
    {
      hide Print, PrintItems;
      ItemText(items, i, depth, fmt);
      ghost var before := buffer[..offset];
      PrintValue(items[i], depth, fmt);
      NulFreeTail(before, items[i], depth, fmt);
      Update(before + Print(items[i], depth, fmt), |Print(items[i], depth, fmt)|);
      if i + 1 < |items| {
        Append(if fmt then ", " else ",", 1);
      }
    }

    method PrintObject(ms: seq<Member>, depth: nat, fmt: bool)
      requires AllMembersValid(ms) && offset <= buffer.Length && offset + |Print(Obj(ms), depth, fmt)| + SLACK <= LIMIT
      modifies this, buffer
      ensures (buffer == old(buffer) || fresh(buffer)) && Wrote(old(buffer[..offset]), Print(Obj(ms), depth, fmt))
      decreases ms, 2
    {
      hide Print, PrintMembers, Fmt, Tabs, AllMembersValid;
      ObjectText(ms, depth, fmt);
      if ms == [] {
        Put("{" + Fmt(fmt, "\n" + Tabs(depth)) + "}", 1);
        return;
      }
      var start, close := "{" + Fmt(fmt, "\n"), Fmt(fmt, Tabs(depth)) + "}";
      ghost var (before, x) := (buffer[..offset], PrintMembers(ms, depth + 1, fmt));
      assert before + (start + x + close) == before + start + x + close;
      Append(start, 1);
      PrintMembersAll(ms, depth + 1, fmt);
      Put(close, 1);
    }

    method PrintMembersAll(ms: seq<Member>, depth: nat, fmt: bool)
      requires AllMembersValid(ms) && ms != [] && offset <= buffer.Length && 1 <= depth
      requires offset + |PrintMembers(ms, depth, fmt)| + 1 + SLACK <= LIMIT
      modifies this, buffer
      ensures (buffer == old(buffer) || fresh(buffer)) && old(offset) <= offset <= buffer.Length
      ensures buffer[..offset] == old(buffer[..offset]) + PrintMembers(ms, depth, fmt)
      decreases ms, 1, 1
    {
      hide Print, PrintMembers, AllMembersValid;
      ghost var all := buffer[..offset] + PrintMembers(ms, depth, fmt);
      assert ms[0..] == ms;
      for i := 0 to |ms|
        invariant buffer == old(buffer) || fresh(buffer)
        invariant old(offset) <= offset <= buffer.Length
        invariant all == buffer[..offset] + if i < |ms| then PrintMembers(ms[i..], depth, fmt) else []
      {
        PrintOneMember(ms, i, depth, fmt);
      }
    }

    // One member and what separates it from the next.
    method PrintOneMember(ms: seq<Member>, i: nat, depth: nat, fmt: bool)
      requires AllMembersValid(ms) && i < |ms| && offset <= buffer.Length && 1 <= depth
      requires offset + |PrintMembers(ms[i..], depth, fmt)| + 1 + SLACK <= LIMIT
      modifies this, buffer
      ensures (buffer == old(buffer) || fresh(buffer)) && old(offset) <= offset <= buffer.Length
      ensures old(buffer[..offset]) + PrintMembers(ms[i..], depth, fmt) ==
              buffer[..offset] + if i + 1 < |ms| then PrintMembers(ms[i + 1..], depth, fmt) else []
      decreases ms, 1, 0
    {
      hide Print, PrintMembers, Quote, PrintMember, Fmt, KeyText;
      MemberText(ms, i, depth, fmt);
      PrintPair(ms[i], depth, fmt);
      Append((if i + 1 < |ms| then "," else []) + Fmt(fmt, "\n"), 1);
    }

    // Key and value, with the offset moved past both.
    method PrintPair(m: Member, depth: nat, fmt: bool)
      requires NulFree(m.key) && Valid(m.value) && offset <= buffer.Length && 1 <= depth
      requires offset + |KeyText(m.key, depth, fmt)| + |Print(m.value, depth, fmt)| + SLACK <= LIMIT
      modifies this, buffer
      ensures (buffer == old(buffer) || fresh(buffer)) && old(offset) <= offset <= buffer.Length
      ensures buffer[..offset] == old(buffer[..offset]) + KeyText(m.key, depth, fmt) + Print(m.value, depth, fmt)
      decreases m, 1
    {
      hide Print, Quote, Fmt, KeyText, NulFree;
      PrintKey(m.key, depth, fmt);
      ghost var keyed := buffer[..offset];
      PrintValue(m.value, depth, fmt);
      NulFreeTail(keyed, m.value, depth, fmt);
      Update(keyed + Print(m.value, depth, fmt), |Print(m.value, depth, fmt)|);
    }

    method PrintKey(key: string, depth: nat, fmt: bool)
      requires NulFree(key) && offset <= buffer.Length && 1 <= depth
      requires offset + |KeyText(key, depth, fmt)| + SLACK <= LIMIT
      modifies this, buffer
      ensures (buffer == old(buffer) || fresh(buffer)) && old(offset) <= offset <= buffer.Length
      ensures buffer[..offset] == old(buffer[..offset]) + KeyText(key, depth, fmt)
    {
      hide Quote, Tabs, Holds;
      if fmt {
        Append(Tabs(depth), 0);
      }
      PrintName(key);
      Append(":" + Fmt(fmt, "\t"), 0);
    }

    // A key, with the offset moved past it.
    method PrintName(key: string)
      requires NulFree(key) && offset <= buffer.Length && offset + |Quote(key)| + 1 <= LIMIT
      modifies this, buffer
      ensures (buffer == old(buffer) || fresh(buffer)) && old(offset) <= offset <= buffer.Length
      ensures buffer[..offset] == old(buffer[..offset]) + Quote(key)
    {
      hide Quote, NulFree;
      ghost var before := buffer[..offset];
      PrintString(key);
      QuoteNulFree(key);
      assert (before + Quote(key))[|before|..] == Quote(key);
      Update(before + Quote(key), |Quote(key)|);
    }
  }

  /** cJSON_PrintBuffered: whatever the initial size, the text is the one the
      measured printer gives. */
  method PrintBuffered(j: Json, prebuffer: nat, fmt: bool) returns (out: array<char>)
    requires Valid(j) && prebuffer >= 1 && |Print(j, 0, fmt)| + SLACK <= LIMIT
    ensures CString(out, Print(j, 0, fmt))
  {
    hide Print;
    var p := new PrintBuffer(prebuffer);
    p.PrintValue(j, 0, fmt);
    out := p.buffer;
    assert [] + Print(j, 0, fmt) == Print(j, 0, fmt);
  }
}
