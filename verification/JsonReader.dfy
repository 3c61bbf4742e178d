/** The parser as the source runs it: loops that move a text pointer and collect
    children as they go. */
module JsonReader {
  import opened Packets
  import opened JsonStrings
  import opened JsonText

  method SkipBlanks(t: string) returns (r: string)
    ensures r == Skip(t)
  {
    var i := 0;
    assert t[0..] == t;
    while i < |t| && t[i] as int <= 32
      invariant i <= |t| && Skip(t[i..]) == Skip(t)
    {
      assert t[i..][1..] == t[i + 1..];
      i := i + 1;
    }
    return t[i..];
  }

  method ReadDigitRun(t: string) returns (n: nat, rest: string)
    ensures (n, rest) == ReadDigits(0, t)
  {
    var i := 0;
    n := 0;
    assert t[0..] == t;
    while i < |t| && Digit(t[i])
      invariant i <= |t| && ReadDigits(n, t[i..]) == ReadDigits(0, t)
    {
      assert t[i..][1..] == t[i + 1..];
      n, i := n * 10 + DigitValue(t[i]), i + 1;
    }
    rest := t[i..];
  }

  method ReadNumber(t: string) returns (r: Parsed<Json>)
    requires t != [] && (t[0] == '-' || Digit(t[0]))
    ensures r == ParseNumber(t)
  {
    hide ReadDigits;
    var num, sign: int := t, 1;
    if num[0] == '-' {
      sign, num := -1, num[1..];
    }
    if num != [] && num[0] == '0' {
      num := num[1..];
    }
    var n: nat := 0;
    if num != [] && '1' <= num[0] <= '9' {
      n, num := ReadDigitRun(num);
    }
    if |num| >= 2 && num[0] == '.' && Digit(num[1]) {
      return Inexact;
    }
    if num != [] && (num[0] == 'e' || num[0] == 'E') {
      return Inexact;
    }
    if !(-INT_MAX - 1 <= sign * n <= INT_MAX) {
      return Inexact;
    }
    return Done(Num(sign * n), num);
  }

  /** parse_value */
  method ReadValue(t: string) returns (r: Parsed<Json>)
    ensures r == ParseValue(t)
    decreases |t|, 1
  {
    hide ParseString, ParseNumber, ParseItems, ParseMembers;
    if "null" <= t {
      return Done(Null, t[4..]);
    }
    if "false" <= t {
      return Done(False, t[5..]);
    }
    if "true" <= t {
      return Done(True, t[4..]);
    }
    if t == [] {
      return Fail(Some(t));
    }
    if t[0] == '\"' {
      var s := ReadString(t);
      match s
      case Done(v, rest) => return Done(Str(v), rest);
      case Fail(at) => return Fail(at);
      case Inexact => return Inexact;
    } else if t[0] == '-' || Digit(t[0]) {
      r := ReadNumber(t);
    } else if t[0] == '[' {
      r := ReadArray(t);
    } else if t[0] == '{' {
      r := ReadObject(t);
    } else {
      return Fail(Some(t));
    }
  }

  // What is still to come after elements `xs`, with the text at `s`.
  function ItemsFrom(xs: seq<Json>, s: string): Parsed<seq<Json>> {
    if s != [] && s[0] == ',' then
      (match ParseItems(s[1..])
       case Done(ys, end) => Done(xs + ys, end)
       case Fail(at) => Fail(at)
       case Inexact => Inexact)
    else if s != [] && s[0] == ']' then Done(xs, s[1..])
    else Fail(Some(s))
  }

  lemma ItemsFirst(t: string, x: Json, rest: string)
    requires ParseValue(Skip(t)) == Done(x, rest)
    ensures ParseItems(t) == ItemsFrom([x], Skip(rest))
  {
    hide ParseValue;
  }

  lemma ItemsNext(xs: seq<Json>, s: string, x: Json, rest: string)
    requires s != [] && s[0] == ',' && ParseValue(Skip(s[1..])) == Done(x, rest)
    ensures ItemsFrom(xs, s) == ItemsFrom(xs + [x], Skip(rest))
  {
    hide ParseValue;
    ItemsFirst(s[1..], x, rest);
    if Skip(rest) != [] && Skip(rest)[0] == ',' && ParseItems(Skip(rest)[1..]).Done? {
      var ys := ParseItems(Skip(rest)[1..]).value;
      assert xs + ([x] + ys) == xs + [x] + ys;
    }
  }

  lemma ItemsFail(t: string)
    requires !ParseValue(Skip(t)).Done?
    ensures ParseItems(t) == (match ParseValue(Skip(t)) case Fail(at) => Fail(at) case _ => Inexact)
  {
    hide ParseValue;
  }

  /** parse_array */
  method ReadArray(t: string) returns (r: Parsed<Json>)
    requires t != [] && t[0] == '['
    ensures r == ParseValue(t)
    decreases |t|, 0
  {
    hide ParseItems;
    var v := SkipBlanks(t[1..]);
    if v != [] && v[0] == ']' {
      return Done(Arr([]), v[1..]);
    }
    var items := ReadItems(v);
    match items
    case Done(xs, rest) => return Done(Arr(xs), rest);
    case Fail(at) => return Fail(at);
    case Inexact => return Inexact;
  }

  method ReadItems(v: string) returns (r: Parsed<seq<Json>>)
    ensures r == ParseItems(v)
    decreases |v|, 2
  {
    hide ParseValue, ParseItems;
    var u := SkipBlanks(v);
    var child := ReadValue(u);
    if !child.Done? {
      ItemsFail(v);
      return match child case Fail(at) => Fail(at) case _ => Inexact;
    }
    ItemsFirst(v, child.value, child.rest);
    var xs := [child.value];
    var value := SkipBlanks(child.rest);
    while value != [] && value[0] == ','
      invariant |value| < |v| && ParseItems(v) == ItemsFrom(xs, value)
      decreases |value|
    {
      u := SkipBlanks(value[1..]);
      child := ReadValue(u);
      if !child.Done? {
        ItemsFail(value[1..]);
        return match child case Fail(at) => Fail(at) case _ => Inexact;
      }
      ItemsNext(xs, value, child.value, child.rest);
      xs := xs + [child.value];
      value := SkipBlanks(child.rest);
    }
    if value != [] && value[0] == ']' {
      return Done(xs, value[1..]);
    }
    return Fail(Some(value));
  }

  // ---- Objects ---------------------------------------------------------------------------

  method ReadMember(t: string) returns (r: Parsed<Member>)
    ensures r == ParseMember(t)
    decreases |t|, 2
  {
    hide ParseValue, ParseString;
    var u := SkipBlanks(t);
    var key := ReadString(u);
    if !key.Done? {
      return match key case Fail(at) => Fail(at) case _ => Inexact;
    }
    var s := SkipBlanks(key.rest);
    if s == [] || s[0] != ':' {
      return Fail(Some(s));
    }
    u := SkipBlanks(s[1..]);
    var v := ReadValue(u);
    return match v
      case Done(x, end) => Done(Member(key.value, x), end)
      case Fail(at) => Fail(at)
      case Inexact => Inexact;
  }

  function MembersFrom(ms: seq<Member>, s: string): Parsed<seq<Member>> {
    if s != [] && s[0] == ',' then
      (match ParseMembers(s[1..])
       case Done(more, end) => Done(ms + more, end)
       case Fail(at) => Fail(at)
       case Inexact => Inexact)
    else if s != [] && s[0] == '}' then Done(ms, s[1..])
    else Fail(Some(s))
  }

  lemma MembersFirst(t: string)
    ensures ParseMembers(t) == match ParseMember(t)
                               case Done(m, rest) => MembersFrom([m], Skip(rest))
                               case Fail(at) => Fail(at)
                               case Inexact => Inexact
  {
    hide ParseMember;
  }

  lemma MembersNext(ms: seq<Member>, s: string)
    requires s != [] && s[0] == ','
    ensures MembersFrom(ms, s) == match ParseMember(s[1..])
                                  case Done(m, rest) => MembersFrom(ms + [m], Skip(rest))
                                  case Fail(at) => Fail(at)
                                  case Inexact => Inexact
  {
    hide ParseMember;
    MembersFirst(s[1..]);
    var p := ParseMember(s[1..]);
    if p.Done? && Skip(p.rest) != [] && Skip(p.rest)[0] == ',' && ParseMembers(Skip(p.rest)[1..]).Done? {
      var more := ParseMembers(Skip(p.rest)[1..]).value;
      assert ms + ([p.value] + more) == ms + [p.value] + more;
    }
  }

  /** parse_object */
  method ReadObject(t: string) returns (r: Parsed<Json>)
    requires t != [] && t[0] == '{'
    ensures r == ParseValue(t)
    decreases |t|, 0
  {
    hide ParseMembers;
    var v := SkipBlanks(t[1..]);
    if v != [] && v[0] == '}' {
      return Done(Obj([]), v[1..]);
    }
    var members := ReadMembers(v);
    match members
    case Done(ms, rest) => return Done(Obj(ms), rest);
    case Fail(at) => return Fail(at);
    case Inexact => return Inexact;
  }

  method ReadMembers(v: string) returns (r: Parsed<seq<Member>>)
    ensures r == ParseMembers(v)
    decreases |v|, 3
  {
    hide ParseMember, ParseMembers;
    MembersFirst(v);
    var child := ReadMember(v);
    if !child.Done? {
      return match child case Fail(at) => Fail(at) case _ => Inexact;
    }
    var ms := [child.value];
    var value := SkipBlanks(child.rest);
    while value != [] && value[0] == ','
      invariant |value| < |v| && ParseMembers(v) == MembersFrom(ms, value)
      decreases |value|
    {
      MembersNext(ms, value);
      child := ReadMember(value[1..]);
      if !child.Done? {
        return match child case Fail(at) => Fail(at) case _ => Inexact;
      }
      ms := ms + [child.value];
      value := SkipBlanks(child.rest);
    }
    if value != [] && value[0] == '}' {
      return Done(ms, value[1..]);
    }
    return Fail(Some(value));
  }
}
