/** The byte form in which a SCADA master's state travels between replicas. */
module StateCodec {
  import opened Packets
  import opened Grid

  const WORD := 0x1_0000_0000
  const SLOT_HEADER := 8
  const PNNL_BYTES := RTU_DATA_PAYLOAD_LEN - PNNL_DATA_PADDING

  // Little-endian 32-bit words.
  function U32(n: nat): (r: seq<byte>)
    requires n < WORD
    ensures |r| == 4
  {
    [n % 256, n / 256 % 256, n / 65536 % 256, n / 16777216]
  }

  function ReadU32(b: seq<byte>, at: nat): nat
    requires at + 4 <= |b|
  {
    b[at] as int + 256 * (b[at + 1] as int) + 65536 * (b[at + 2] as int) + 16777216 * (b[at + 3] as int)
  }

  // A word is the sum of its four bytes' weights.
  lemma FourBytes(n: nat)
    requires n < WORD
    ensures n % 256 + 256 * (n / 256 % 256) + 65536 * (n / 65536 % 256) + 16777216 * (n / 16777216) == n
  {
    var a, b := n / 256, n / 65536;
    assert a / 256 == b && b / 256 == n / 16777216;
    assert n == 256 * a + n % 256 && a == 256 * b + a % 256 && b == 256 * (n / 16777216) + b % 256;
  }

  lemma ReadWritten(b: seq<byte>, at: nat, n: nat)
    requires n < WORD && at + 4 <= |b| && b[at..at + 4] == U32(n)
    ensures ReadU32(b, at) == n
  {
    var w := b[at..at + 4];
    assert w[0] == b[at] && w[1] == b[at + 1] && w[2] == b[at + 2] && w[3] == b[at + 3];
    FourBytes(n);
  }

  // ---- Packing -----------------------------------------------------------------

  function SwitchBytes(sw: seq<byte>, list: seq<nat>): (r: seq<byte>)
    requires forall a | 0 <= a < |list| :: list[a] < |sw|
    ensures |r| == |list|
  {
    seq(|list|, a requires 0 <= a < |list| => sw[list[a]])
  }

  predicate Packable(topo: Topology, sw: seq<byte>, tx: seq<byte>) {
    topo.Valid() && topo.Fits(sw, tx) && |topo.subs| < WORD
  }

  function PackSub(topo: Topology, sw: seq<byte>, tx: seq<byte>, i: nat): (r: seq<byte>)
    requires Packable(topo, sw, tx) && i < |topo.subs|
    ensures |r| == SLOT_HEADER + 1 + |topo.subs[i].switches|
  {
    assert topo.ValidSub(i);
    U32(i) + U32(1 + |topo.subs[i].switches|) + [tx[i]] + SwitchBytes(sw, topo.subs[i].switches)
  }

  // The first n substations.
  function PackSubs(topo: Topology, sw: seq<byte>, tx: seq<byte>, n: nat): seq<byte>
    requires Packable(topo, sw, tx) && n <= |topo.subs|
  {
    if n == 0 then [] else PackSubs(topo, sw, tx, n - 1) + PackSub(topo, sw, tx, n - 1)
  }

  function Pack(topo: Topology, sw: seq<byte>, tx: seq<byte>, pnnl: PnnlFields): seq<byte>
    requires Packable(topo, sw, tx)
  {
    PackSubs(topo, sw, tx, |topo.subs|) + U32(PNNL_RTU_ID) + U32(0) + pnnl[PNNL_DATA_PADDING..]
  }

  // ---- Unpacking ------------------------------------------------------------------

  // Where the reader stands, and the statuses so far.
  datatype Reader = Reader(sw: seq<byte>, tx: seq<byte>, pos: nat)

  function SetSwitches(sw: seq<byte>, list: seq<nat>, vals: seq<byte>): (r: seq<byte>)
    requires |vals| <= |list| && forall a | 0 <= a < |list| :: list[a] < |sw|
    ensures |r| == |sw|
  {
    if vals == [] then sw
    else SetSwitches(sw, list, vals[..|vals| - 1])[list[|vals| - 1] := vals[|vals| - 1]]
  }

  // One substation's slot.  None: the source would read or write outside its arrays.
  function UnpackSub(topo: Topology, r: Reader, b: seq<byte>): (o: Option<Reader>)
    requires topo.Valid() && topo.Fits(r.sw, r.tx)
    ensures o.Some? ==> topo.Fits(o.value.sw, o.value.tx)
  {
    if r.pos + SLOT_HEADER > |b| then None
    else
      var i, n := ReadU32(b, r.pos), ReadU32(b, r.pos + 4);
      var f := r.pos + SLOT_HEADER;
      if i >= |topo.subs| || n == 0 || f + n > |b| || n - 1 > |topo.subs[i].switches| then None
      else
        assert topo.ValidSub(i);
        Some(Reader(SetSwitches(r.sw, topo.subs[i].switches, b[f + 1..f + n]), r.tx[i := b[f]], f + n))
  }

  function UnpackSubs(topo: Topology, r: Reader, b: seq<byte>, count: nat): (o: Option<Reader>)
    requires topo.Valid() && topo.Fits(r.sw, r.tx)
    ensures o.Some? ==> topo.Fits(o.value.sw, o.value.tx)
  {
    if count == 0 then Some(r)
    else
      var o := UnpackSubs(topo, r, b, count - 1);
      if o.None? then None else UnpackSub(topo, o.value, b)
  }

  datatype Unpacked = Unpacked(sw: seq<byte>, tx: seq<byte>, pnnl: PnnlFields)

  // The whole state over the statuses at hand; the source asserts that the read
  // cursor ends exactly at the end.
  function Unpack(topo: Topology, sw: seq<byte>, tx: seq<byte>, pnnl: PnnlFields, numClients: nat,
                  b: seq<byte>): (o: Option<Unpacked>)
    requires topo.Valid() && topo.Fits(sw, tx)
    ensures o.Some? ==> topo.Fits(o.value.sw, o.value.tx)
  {
    if numClients == 0 then None
    else
      var o := UnpackSubs(topo, Reader(sw, tx, 0), b, numClients - 1);
      if o.None? || o.value.pos + SLOT_HEADER + PNNL_BYTES != |b| then None
      else Some(Unpacked(o.value.sw, o.value.tx, pnnl[..PNNL_DATA_PADDING] + b[o.value.pos + SLOT_HEADER..]))
  }

  // ---- Round trip --------------------------------------------------------------------

  lemma {:induction false} PackSubsPrefix(topo: Topology, sw: seq<byte>, tx: seq<byte>, i: nat, n: nat)
    requires Packable(topo, sw, tx) && i <= n <= |topo.subs|
    ensures PackSubs(topo, sw, tx, i) <= PackSubs(topo, sw, tx, n)
    decreases n
  {
    if i < n {
      PackSubsPrefix(topo, sw, tx, i, n - 1);
    }
  }

  lemma {:induction false} SetSwitchesAt(sw: seq<byte>, list: seq<nat>, vals: seq<byte>, w: nat)
    requires |vals| <= |list| && (forall a | 0 <= a < |list| :: list[a] < |sw|) && w < |sw|
    requires forall a, c | 0 <= a < c < |list| :: list[a] != list[c]
    ensures w !in list[..|vals|] ==> SetSwitches(sw, list, vals)[w] == sw[w]
    ensures forall a | 0 <= a < |vals| && list[a] == w :: SetSwitches(sw, list, vals)[w] == vals[a]
    decreases |vals|
  {
    if vals != [] {
      SetSwitchesAt(sw, list, vals[..|vals| - 1], w);
    }
  }

  // The reader after the first i slots: those substations have the packed
  // statuses, everything else is as before.
  predicate RestoredUpTo(topo: Topology, i: nat, r: Reader, sw: seq<byte>, tx: seq<byte>)
    requires topo.Valid() && topo.Fits(sw, tx)
  {
    && topo.Fits(r.sw, r.tx)
    && (forall k | 0 <= k < i && k < |topo.subs| :: r.tx[k] == tx[k])
    && (forall k, a | 0 <= k < i && k < |topo.subs| && 0 <= a < |topo.subs[k].switches| ::
          topo.ValidSub(k) && r.sw[topo.subs[k].switches[a]] == sw[topo.subs[k].switches[a]])
  }

  // What a packed slot reads back as.
  lemma SlotFields(topo: Topology, sw: seq<byte>, tx: seq<byte>, b: seq<byte>, at: nat, i: nat)
    requires Packable(topo, sw, tx) && i < |topo.subs|
    requires var p := PackSub(topo, sw, tx, i); at + |p| <= |b| && b[at..at + |p|] == p
    ensures var n := 1 + |topo.subs[i].switches|;
            && ReadU32(b, at) == i && ReadU32(b, at + 4) == n && b[at + SLOT_HEADER] == tx[i]
            && topo.ValidSub(i)
            && b[at + SLOT_HEADER + 1..at + SLOT_HEADER + n] == SwitchBytes(sw, topo.subs[i].switches)
  {
    var list := topo.subs[i].switches;
    assert topo.ValidSub(i);
    var p, n := PackSub(topo, sw, tx, i), 1 + |list|;
    forall j | 0 <= j < |p| ensures b[at + j] == p[j] {
      assert b[at..at + |p|][j] == b[at + j];
    }
    assert p[..4] == U32(i) && p[4..8] == U32(n);
    assert b[at..at + 4] == p[..4] && b[at + 4..at + 8] == p[4..8];
    ReadWritten(b, at, i);
    ReadWritten(b, at + 4, n);
    assert b[at + 8] == p[8] == tx[i];
    assert b[at + 9..at + 8 + n] == p[9..] == SwitchBytes(sw, list);
  }

  lemma SetSwitchesRestores(topo: Topology, sw: seq<byte>, tx: seq<byte>, r: Reader, i: nat)
    requires Packable(topo, sw, tx) && i < |topo.subs| && topo.ValidSub(i)
    requires RestoredUpTo(topo, i, r, sw, tx)
    ensures var list := topo.subs[i].switches;
            RestoredUpTo(topo, i + 1, Reader(SetSwitches(r.sw, list, SwitchBytes(sw, list)), r.tx[i := tx[i]], 0),
                         sw, tx)
  {
    var list := topo.subs[i].switches;
    var sw1 := SetSwitches(r.sw, list, SwitchBytes(sw, list));
    forall k, a | 0 <= k < i + 1 && 0 <= a < |topo.subs[k].switches|
      ensures topo.ValidSub(k) && sw1[topo.subs[k].switches[a]] == sw[topo.subs[k].switches[a]]
    {
      assert topo.ValidSub(k);
      SetSwitchesAt(r.sw, list, SwitchBytes(sw, list), topo.subs[k].switches[a]);
    }
  }

  lemma UnpackSubRestores(topo: Topology, sw: seq<byte>, tx: seq<byte>, r: Reader, b: seq<byte>, i: nat)
    requires Packable(topo, sw, tx) && i < |topo.subs|
    requires RestoredUpTo(topo, i, r, sw, tx)
    requires var p := PackSub(topo, sw, tx, i); r.pos + |p| <= |b| && b[r.pos..r.pos + |p|] == p
    ensures var o := UnpackSub(topo, r, b);
            && o.Some? && o.value.pos == r.pos + |PackSub(topo, sw, tx, i)|
            && RestoredUpTo(topo, i + 1, o.value, sw, tx)
  {
    SlotFields(topo, sw, tx, b, r.pos, i);
    SetSwitchesRestores(topo, sw, tx, r, i);
  }

  lemma {:induction false} UnpackSubsRestores(topo: Topology, sw: seq<byte>, tx: seq<byte>, r0: Reader, b: seq<byte>,
                                              n: nat)
    requires Packable(topo, sw, tx) && n <= |topo.subs|
    requires topo.Fits(r0.sw, r0.tx) && r0.pos == 0
    requires PackSubs(topo, sw, tx, n) <= b
    ensures var o := UnpackSubs(topo, r0, b, n);
            && o.Some? && o.value.pos == |PackSubs(topo, sw, tx, n)|
            && RestoredUpTo(topo, n, o.value, sw, tx)
  {
    hide PackSub, UnpackSub, Topology.Valid;
    if n > 0 {
      PackSubsPrefix(topo, sw, tx, n - 1, n);
      UnpackSubsRestores(topo, sw, tx, r0, b, n - 1);
      var q := PackSubs(topo, sw, tx, n - 1);
      var p := PackSub(topo, sw, tx, n - 1);
      assert b[|q|..|q| + |p|] == b[..|q| + |p|][|q|..] == p;
      UnpackSubRestores(topo, sw, tx, UnpackSubs(topo, r0, b, n - 1).value, b, n - 1);
    }
  }

  /** Unpacking a packed state, over whatever statuses the receiver had, restores
      every transformer and switch and the PNNL bytes after the padding; the
      read cursor ends exactly at the end, so the source's assertion holds. */
  lemma RoundTrip(topo: Topology, sw: seq<byte>, tx: seq<byte>, pnnl: PnnlFields,
                  sw0: seq<byte>, tx0: seq<byte>, pnnl0: PnnlFields)
    requires Packable(topo, sw, tx) && topo.Fits(sw0, tx0)
    ensures Unpack(topo, sw0, tx0, pnnl0, |topo.subs| + 1, Pack(topo, sw, tx, pnnl))
         == Some(Unpacked(sw, tx, pnnl0[..PNNL_DATA_PADDING] + pnnl[PNNL_DATA_PADDING..]))
  {
    var n := |topo.subs|;
    var b, q := Pack(topo, sw, tx, pnnl), PackSubs(topo, sw, tx, n);
    assert q <= b;
    UnpackSubsRestores(topo, sw, tx, Reader(sw0, tx0, 0), b, n);
    var r := UnpackSubs(topo, Reader(sw0, tx0, 0), b, n).value;
    forall w | 0 <= w < |sw| ensures r.sw[w] == sw[w] {
      assert topo.Owned(w);
    }
    assert r.sw == sw && r.tx == tx;
    assert b[|q| + SLOT_HEADER..] == pnnl[PNNL_DATA_PADDING..];
  }

  /** A state of n substations takes at most 19n + 68 bytes. */
  lemma {:induction false} PackedSize(topo: Topology, sw: seq<byte>, tx: seq<byte>, pnnl: PnnlFields)
    requires Packable(topo, sw, tx)
    ensures |Pack(topo, sw, tx, pnnl)| <= 19 * |topo.subs| + 68
  {
    PackSubsSize(topo, sw, tx, |topo.subs|);
  }

  lemma {:induction false} PackSubsSize(topo: Topology, sw: seq<byte>, tx: seq<byte>, n: nat)
    requires Packable(topo, sw, tx) && n <= |topo.subs|
    ensures |PackSubs(topo, sw, tx, n)| <= 19 * n
  {
    if n > 0 {
      PackSubsSize(topo, sw, tx, n - 1);
      assert topo.ValidSub(n - 1);
    }
  }

  // ---- Layout ------------------------------------------------------------------------

  // Where the i-th substation's slot starts: each takes nine bytes and one for each switch.
  function SlotStart(topo: Topology, i: nat): nat
    requires i <= |topo.subs|
  {
    if i == 0 then 0 else SlotStart(topo, i - 1) + 9 + |topo.subs[i - 1].switches|
  }

  lemma {:induction false} PackedStart(topo: Topology, sw: seq<byte>, tx: seq<byte>, n: nat)
    requires Packable(topo, sw, tx) && n <= |topo.subs|
    ensures |PackSubs(topo, sw, tx, n)| == SlotStart(topo, n)
  {
    if n > 0 {
      PackedStart(topo, sw, tx, n - 1);
    }
  }

  // The four bytes at `at` are `n`, lowest first.
  predicate WordAt(b: seq<byte>, at: nat, n: nat) {
    && at + 4 <= |b|
    && n == b[at] as int + 0x100 * (b[at + 1] as int) + 0x1_0000 * (b[at + 2] as int) + 0x100_0000 * (b[at + 3] as int)
  }

  /** Where everything stands in the packed bytes: for each substation its number,
      the count of its statuses, its transformer's and its switches'; after them
      the PNNL identifier, an empty count and the PNNL bytes. */
  lemma LayoutExactly(topo: Topology, sw: seq<byte>, tx: seq<byte>, pnnl: PnnlFields, i: nat)
    requires Packable(topo, sw, tx) && i < |topo.subs| && topo.ValidSub(i)
    ensures var b, at, list := Pack(topo, sw, tx, pnnl), SlotStart(topo, i), topo.subs[i].switches;
            && at + 9 + |list| <= |b| && WordAt(b, at, i) && WordAt(b, at + 4, 1 + |list|) && b[at + 8] == tx[i]
            && (forall a | 0 <= a < |list| :: b[at + 9 + a] == sw[list[a]])
    ensures var b, at := Pack(topo, sw, tx, pnnl), SlotStart(topo, |topo.subs|);
            && |b| == at + 68 && WordAt(b, at, 10) && WordAt(b, at + 4, 0)
            && (forall k | 4 <= k < 64 :: b[at + 4 + k] == pnnl[k])
  {
    hide U32, PackSub, WordAt, PackSubs;
    var n := |topo.subs|;
    var all := PackSubs(topo, sw, tx, n);
    var tail := U32(PNNL_RTU_ID) + U32(0) + pnnl[PNNL_DATA_PADDING..];
    PackedStart(topo, sw, tx, n);
    assert Pack(topo, sw, tx, pnnl) == all + tail;
    SlotInside(topo, sw, tx, i, tail);
    SlotLayout(topo, sw, tx, i, all + tail, SlotStart(topo, i));
    TailLayout(all, tail, pnnl);
  }

  lemma SlotInside(topo: Topology, sw: seq<byte>, tx: seq<byte>, i: nat, tail: seq<byte>)
    requires Packable(topo, sw, tx) && i < |topo.subs| && topo.ValidSub(i)
    ensures var b, at, slot := PackSubs(topo, sw, tx, |topo.subs|) + tail, SlotStart(topo, i), PackSub(topo, sw, tx, i);
            at + |slot| <= |b| && b[at..at + |slot|] == slot
  {
    hide PackSub;
    PackedStart(topo, sw, tx, i);
    PackSubsPrefix(topo, sw, tx, i + 1, |topo.subs|);
    var all, upTo := PackSubs(topo, sw, tx, |topo.subs|), PackSubs(topo, sw, tx, i + 1);
    var slot := PackSub(topo, sw, tx, i);
    assert all[..|upTo|] == upTo && upTo[SlotStart(topo, i)..] == slot;
  }

  lemma SlotLayout(topo: Topology, sw: seq<byte>, tx: seq<byte>, i: nat, b: seq<byte>, at: nat)
    requires Packable(topo, sw, tx) && i < |topo.subs| && topo.ValidSub(i)
    requires var slot := PackSub(topo, sw, tx, i); at + |slot| <= |b| && b[at..at + |slot|] == slot
    ensures var list := topo.subs[i].switches;
            && WordAt(b, at, i) && WordAt(b, at + 4, 1 + |list|) && b[at + 8] == tx[i]
            && (forall a | 0 <= a < |list| :: b[at + 9 + a] == sw[list[a]])
  {
    hide U32;
    var slot, list := PackSub(topo, sw, tx, i), topo.subs[i].switches;
    assert forall k | at <= k < at + |slot| :: b[k] == slot[k - at];
    WordWritten(b, at, i);
    WordWritten(b, at + 4, 1 + |list|);
  }

  lemma WordWritten(b: seq<byte>, at: nat, n: nat)
    requires n < WORD && at + 4 <= |b| && forall k | 0 <= k < 4 :: b[at + k] == U32(n)[k]
    ensures WordAt(b, at, n)
  {
    assert b[at] == U32(n)[0] && b[at + 1] == U32(n)[1] && b[at + 2] == U32(n)[2] && b[at + 3] == U32(n)[3];
    FourBytes(n);
  }

  lemma TailLayout(all: seq<byte>, tail: seq<byte>, pnnl: PnnlFields)
    requires tail == U32(PNNL_RTU_ID) + U32(0) + pnnl[PNNL_DATA_PADDING..]
    ensures var b, at := all + tail, |all|;
            && |b| == at + 68 && WordAt(b, at, 10) && WordAt(b, at + 4, 0)
            && (forall k | 4 <= k < 64 :: b[at + 4 + k] == pnnl[k])
  {
    hide U32;
    var b, at := all + tail, |all|;
    assert forall k | 0 <= k < |tail| :: b[at + k] == tail[k];
    WordWritten(b, at, PNNL_RTU_ID);
    WordWritten(b, at + 4, 0);
  }
}
