/** The printer that measures: it prints the parts, adds up their lengths,
    allocates once and composes.  The space it computes is always enough. */
module JsonMeasured {
  import opened JsonStrings
  import opened JsonText
  import opened JsonBuffer

  // The text of a C string.
  method Text(s: array<char>, ghost text: string) returns (t: string)
    requires CString(s, text) && NulFree(text)
    ensures t == text
  {
    var n := 0;
    while s[n] != NUL
      invariant n <= |text|
      decreases |text| - n
    {
      assert s[n] == if n < |text| then s[..|text|][n] else NUL;
      n := n + 1;
    }
    return s[..n];
  }

  // memcpy to the write position.
  method Copy(out: array<char>, at: nat, text: string) returns (next: nat)
    requires at + |text| <= out.Length
    modifies out
    ensures next == at + |text| && out[..next] == old(out[..at]) + text
  {
    forall i | 0 <= i < |text| {
      out[at + i] := text[i];
    }
    next := at + |text|;
  }

  method Whole(text: string, size: nat) returns (out: array<char>)
    requires size > |text|
    ensures fresh(out) && CString(out, text)
  {
    out := new char[size];
    var end := Copy(out, 0, text);
    out[end] := NUL;
    assert out[..end] == text;
  }

  /** cJSON_Print and cJSON_PrintUnformatted. */
  method PrintMeasured(j: Json, depth: nat, fmt: bool) returns (out: array<char>)
    requires Valid(j)
    ensures fresh(out) && CString(out, Print(j, depth, fmt))
    decreases j, 1
  {
    match j
    case Null => out := Whole("null", 5);
    case False => out := Whole("false", 6);
    case True => out := Whole("true", 5);
    case Num(n) =>
      NumFits(n);
      out := Whole(PrintNum(n), if n == 0 then 2 else SLACK);
    case Str(s) => out := QuoteMeasured(s);
    case Arr(items) => out := ArrayMeasured(items, depth, fmt);
    case Obj(ms) => out := ObjectMeasured(ms, depth, fmt);
  }

  method QuoteMeasured(s: string) returns (out: array<char>)
    requires NulFree(s)
    ensures fresh(out) && CString(out, Quote(s))
  {
    var flag, len := StringNeeds(s);
    out := new char[len + 3];
    WriteQuoted(out, 0, s, flag);
    assert out[..len + 2] == Quote(s);
  }

  // What the source adds to its length for each entry.
  function ItemRoom(entries: seq<string>, fmt: bool): nat {
    if entries == [] then 0 else |entries[0]| + 2 + (if fmt then 1 else 0) + ItemRoom(entries[1..], fmt)
  }

  lemma {:induction false} ItemRoomMore(entries: seq<string>, e: string, fmt: bool)
    ensures ItemRoom(entries + [e], fmt) == ItemRoom(entries, fmt) + |e| + 2 + (if fmt then 1 else 0)
  {
    if entries != [] {
      ItemRoomMore(entries[1..], e, fmt);
      assert (entries + [e])[1..] == entries[1..] + [e];
    } else {
      assert (entries + [e])[1..] == [];
    }
  }

  predicate ItemTexts(entries: seq<string>, items: seq<Json>, depth: nat, fmt: bool) {
    |entries| <= |items| && forall i | 0 <= i < |entries| :: entries[i] == Print(items[i], depth, fmt)
  }

  method ArrayMeasured(items: seq<Json>, depth: nat, fmt: bool) returns (out: array<char>)
    requires AllValid(items)
    ensures fresh(out) && CString(out, Print(Arr(items), depth, fmt))
    decreases items, 2
  {
    hide Print, PrintItems, ItemTexts;
    ArrayText(items, depth, fmt);
    if items == [] {
      out := Whole("[]", 3);
      return;
    }
    var entries, len := ItemEntries(items, depth + 1, fmt);
    out := new char[len];
    ghost var all := Print(Arr(items), depth, fmt);
    var ptr: nat := Copy(out, 0, "[");
    assert items[0..] == items && entries[0..] == entries && out[..1] == "[";
    for i := 0 to |items|
      invariant ptr + ItemRoom(entries[i..], fmt) + 4 <= len
      invariant all == out[..ptr] + (if i < |items| then PrintItems(items[i..], depth + 1, fmt) else []) + "]"
    {
      ptr := ComposeItem(out, ptr, items, entries, i, depth + 1, fmt);
    }
    ptr := Copy(out, ptr, "]");
    out[ptr] := NUL;
  }

  // Prints the elements and adds up the length.
  method ItemEntries(items: seq<Json>, depth: nat, fmt: bool) returns (entries: seq<string>, len: nat)
    requires AllValid(items)
    ensures ItemTexts(entries, items, depth, fmt) && |entries| == |items| && len == 5 + ItemRoom(entries, fmt)
    decreases items, 1
  {
    hide Print;
    entries, len := [], 5;
    for i := 0 to |items|
      invariant ItemTexts(entries, items, depth, fmt) && |entries| == i && len == 5 + ItemRoom(entries, fmt)
    {
      ItemValid(items, i);
      var ret := PrintMeasured(items[i], depth, fmt);
      PrintNulFree(items[i], depth, fmt);
      var text := Text(ret, Print(items[i], depth, fmt));
      ItemRoomMore(entries, text, fmt);
      len := len + |text| + 2 + (if fmt then 1 else 0);
      entries := entries + [text];
    }
  }

  method ComposeItem(out: array<char>, at: nat, items: seq<Json>, entries: seq<string>, i: nat, depth: nat, fmt: bool)
    returns (ptr: nat)
    requires AllValid(items) && ItemTexts(entries, items, depth, fmt) && i < |entries| == |items|
    requires at + ItemRoom(entries[i..], fmt) + 4 <= out.Length
    modifies out
    ensures ptr + ItemRoom(entries[i + 1..], fmt) + 4 <= out.Length
    ensures old(out[..at]) + PrintItems(items[i..], depth, fmt) ==
            out[..ptr] + if i + 1 < |items| then PrintItems(items[i + 1..], depth, fmt) else []
    ensures ptr - at <= ItemRoom(entries[i..], fmt) - ItemRoom(entries[i + 1..], fmt)
  {
    hide Print, PrintItems;
    ItemText(items, i, depth, fmt);
    assert entries[i..][1..] == entries[i + 1..];
    ptr := Copy(out, at, entries[i]);
    if i + 1 < |items| {
      ptr := Copy(out, ptr, if fmt then ", " else ",");
      out[ptr] := NUL;
    }
  }

  // ---- Objects --------------------------------------------------------------------------

  datatype Entry = Entry(name: string, value: string)

  function MemberRoom(entries: seq<Entry>, depth: nat, fmt: bool): nat {
    if entries == [] then 0 else EntryRoom(entries[0], depth, fmt) + MemberRoom(entries[1..], depth, fmt)
  }

  function EntryRoom(e: Entry, depth: nat, fmt: bool): nat {
    |e.value| + |e.name| + 2 + if fmt then 2 + depth else 0
  }

  lemma {:induction false} MemberRoomMore(entries: seq<Entry>, e: Entry, depth: nat, fmt: bool)
    ensures MemberRoom(entries + [e], depth, fmt) == MemberRoom(entries, depth, fmt) + EntryRoom(e, depth, fmt)
  {
    if entries != [] {
      MemberRoomMore(entries[1..], e, depth, fmt);
      assert (entries + [e])[1..] == entries[1..] + [e];
    } else {
      assert (entries + [e])[1..] == [];
    }
  }

  predicate MemberTexts(entries: seq<Entry>, ms: seq<Member>, depth: nat, fmt: bool) {
    |entries| <= |ms|
    && forall i | 0 <= i < |entries| :: entries[i] == Entry(Quote(ms[i].key), Print(ms[i].value, depth, fmt))
  }

  method ObjectMeasured(ms: seq<Member>, depth: nat, fmt: bool) returns (out: array<char>)
    requires AllMembersValid(ms)
    ensures fresh(out) && CString(out, Print(Obj(ms), depth, fmt))
    decreases ms, 2
  {
    hide Print, PrintMembers, MemberTexts, Fmt, Tabs, MemberRoom, AllMembersValid;
    ObjectText(ms, depth, fmt);
    FmtSize(fmt, depth);
    if ms == [] {
      out := Whole("{" + Fmt(fmt, "\n" + Tabs(depth)) + "}", if fmt then depth + 4 else 3);
      return;
    }
    var entries, len := MemberEntries(ms, depth + 1, fmt);
    out := new char[len];
    var close := Fmt(fmt, Tabs(depth)) + "}";
    var ptr := Copy(out, 0, "{" + Fmt(fmt, "\n"));
    assert out[..ptr] == "{" + Fmt(fmt, "\n");
    ptr := ComposeMembers(out, ptr, ms, entries, depth + 1, fmt);
    ptr := Copy(out, ptr, close);
    out[ptr] := NUL;
  }

  method ComposeMembers(out: array<char>, at: nat, ms: seq<Member>, entries: seq<Entry>, depth: nat, fmt: bool)
    returns (ptr: nat)
    requires AllMembersValid(ms) && MemberTexts(entries, ms, depth, fmt) && 0 < |entries| == |ms|
    requires at + MemberRoom(entries, depth, fmt) + 1 <= out.Length
    modifies out
    ensures ptr - at <= MemberRoom(entries, depth, fmt) && out[..ptr] == old(out[..at]) + PrintMembers(ms, depth, fmt)
  {
    hide PrintMembers, MemberTexts, AllMembersValid;
    ptr := at;
    ghost var all := out[..at] + PrintMembers(ms, depth, fmt);
    assert ms[0..] == ms && entries[0..] == entries;
    for i := 0 to |ms|
      invariant at <= ptr && ptr - at + MemberRoom(entries[i..], depth, fmt) <= MemberRoom(entries, depth, fmt)
      invariant all == out[..ptr] + if i < |ms| then PrintMembers(ms[i..], depth, fmt) else []
    {
      ptr := ComposeMember(out, ptr, ms, entries, i, depth, fmt);
    }
  }

  lemma FmtSize(fmt: bool, depth: nat)
    ensures |Fmt(fmt, "\n" + Tabs(depth))| == if fmt then depth + 1 else 0
    ensures |Fmt(fmt, Tabs(depth))| == if fmt then depth else 0
    ensures |Fmt(fmt, "\n")| == |Fmt(fmt, "\t")| == if fmt then 1 else 0
  {
  }

  method MemberEntries(ms: seq<Member>, depth: nat, fmt: bool) returns (entries: seq<Entry>, len: nat)
    requires AllMembersValid(ms)
    ensures MemberTexts(entries, ms, depth, fmt) && |entries| == |ms|
    ensures len == 7 + (if fmt then depth else 0) + MemberRoom(entries, depth, fmt)
    decreases ms, 1
  {
    hide Print, Quote, EntryRoom;
    entries, len := [], 7;
    if fmt {
      len := len + depth;
    }
    for i := 0 to |ms|
      invariant MemberTexts(entries, ms, depth, fmt) && |entries| == i
      invariant len == 7 + (if fmt then depth else 0) + MemberRoom(entries, depth, fmt)
    {
      MemberValid(ms, i);
      var str := QuoteMeasured(ms[i].key);
      var ret := PrintMeasured(ms[i].value, depth, fmt);
      QuoteNulFree(ms[i].key);
      PrintNulFree(ms[i].value, depth, fmt);
      var name := Text(str, Quote(ms[i].key));
      var value := Text(ret, Print(ms[i].value, depth, fmt));
      MemberRoomMore(entries, Entry(name, value), depth, fmt);
      len := len + EntryRoom(Entry(name, value), depth, fmt);
      entries := entries + [Entry(name, value)];
    }
  }

  method ComposeMember(out: array<char>, at: nat, ms: seq<Member>, entries: seq<Entry>, i: nat, depth: nat, fmt: bool)
    returns (ptr: nat)
    requires AllMembersValid(ms) && MemberTexts(entries, ms, depth, fmt) && i < |entries| == |ms|
    requires at + MemberRoom(entries[i..], depth, fmt) + 1 <= out.Length
    modifies out
    ensures at <= ptr && ptr - at <= MemberRoom(entries[i..], depth, fmt) - MemberRoom(entries[i + 1..], depth, fmt)
    ensures old(out[..at]) + PrintMembers(ms[i..], depth, fmt) ==
            out[..ptr] + if i + 1 < |ms| then PrintMembers(ms[i + 1..], depth, fmt) else []
  {
    hide Print, PrintMembers, Quote, PrintMember, Fmt, Tabs, KeyText, MemberRoom, MemberTexts;
    MemberText(ms, i, depth, fmt);
    FmtSize(fmt, depth);
    KeySize(ms[i].key, depth, fmt);
    EntryAt(entries, ms, i, depth, fmt);
    ptr := ComposeKey(out, at, ms[i].key, entries[i].name, depth, fmt);
    ptr := Copy(out, ptr, entries[i].value);
    ptr := Copy(out, ptr, (if i + 1 < |ms| then "," else []) + Fmt(fmt, "\n"));
    out[ptr] := NUL;
  }

  lemma EntryAt(entries: seq<Entry>, ms: seq<Member>, i: nat, depth: nat, fmt: bool)
    requires MemberTexts(entries, ms, depth, fmt) && i < |entries|
    ensures MemberRoom(entries[i..], depth, fmt) ==
            |entries[i].value| + |entries[i].name| + 2 + (if fmt then 2 + depth else 0)
            + MemberRoom(entries[i + 1..], depth, fmt)
    ensures entries[i] == Entry(Quote(ms[i].key), Print(ms[i].value, depth, fmt))
  {
    hide Quote, Print;
    assert entries[i..][1..] == entries[i + 1..];
  }

  lemma KeySize(key: string, depth: nat, fmt: bool)
    ensures |KeyText(key, depth, fmt)| == |Quote(key)| + 1 + if fmt then depth + 1 else 0
  {
    hide Quote;
  }

  method ComposeKey(out: array<char>, at: nat, ghost key: string, name: string, depth: nat, fmt: bool)
    returns (ptr: nat)
    requires name == Quote(key) && at + |KeyText(key, depth, fmt)| <= out.Length
    modifies out
    ensures ptr == at + |KeyText(key, depth, fmt)| && out[..ptr] == old(out[..at]) + KeyText(key, depth, fmt)
  {
    hide Quote, Fmt, Tabs;
    ptr := Copy(out, at, Fmt(fmt, Tabs(depth)));
    ptr := Copy(out, ptr, name);
    ptr := Copy(out, ptr, ":" + Fmt(fmt, "\t"));
  }

  /** The two printers give the same text, for every tree, layout and initial size. */
  method BothPrinters(j: Json, prebuffer: nat, fmt: bool) returns (a: array<char>, b: array<char>)
    requires Valid(j) && prebuffer >= 1 && |Print(j, 0, fmt)| + SLACK <= LIMIT
    ensures exists text :: CString(a, text) && CString(b, text) && NulFree(text) && Parse(text) == Done(j, [])
  {
    a := PrintMeasured(j, 0, fmt);
    b := PrintBuffered(j, prebuffer, fmt);
    PrintNulFree(j, 0, fmt);
    RoundTrip(j, fmt);
  }
}
