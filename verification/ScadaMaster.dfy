/** The SCADA master as the source runs it: status fields written in place by
    the grid search, and its state packed to and unpacked from bytes. */
module ScadaMaster {
  import opened Ordinals
  import opened Packets
  import opened Grid
  import opened GridSearch
  import opened StateCodec
  import opened ScadaSpec
  import Fifo

  class Master {
    const me: nat
    const topo: Topology
    // Statuses of switches, transformers, substations and lines, by index.
    const sw: array<byte>
    const tx: array<byte>
    const sub: array<byte>
    const line: array<byte>
    // What operators see, by identifier, and the data of the other scenarios.
    const stat: array<byte>
    const pnnl: array<byte>
    const ems: array<EmsFields>

    predicate Shape() {
      && topo.Valid() && 0 < sub.Length
      && sw.Length == |topo.swIds| && tx.Length == |topo.subs| && sub.Length == |topo.subs|
      && line.Length == |topo.lines| && stat.Length == topo.statLen
      && pnnl.Length == RTU_DATA_PAYLOAD_LEN && ems.Length == EMS_NUM_GENERATORS
      && sw != tx && sw != sub && sw != line && sw != stat && sw != pnnl
      && tx != sub && tx != line && tx != stat && tx != pnnl
      && sub != line && sub != stat && sub != pnnl && line != stat && line != pnnl && stat != pnnl
    }

    ghost predicate Valid()
      reads stat
    {
      Shape() && Deployable(topo) && topo.Untouched(stat[..])
    }

    // init(): everything closed and shown powered.
    constructor (me: nat, topo: Topology)
      requires Deployable(topo)
      ensures Valid() && this.me == me && this.topo == topo && Abs() == InitialSm(topo)
      ensures fresh(sw) && fresh(tx) && fresh(sub) && fresh(line) && fresh(stat) && fresh(pnnl) && fresh(ems)
    {
      this.me, this.topo := me, topo;
      sw := new byte[|topo.swIds|](_ => 1);
      tx := new byte[|topo.subs|](_ => 1);
      sub := new byte[|topo.subs|](_ => 1);
      line := new byte[|topo.lines|](_ => 1);
      stat := new byte[topo.statLen](_ => 1);
      pnnl := new byte[RTU_DATA_PAYLOAD_LEN](_ => 0);
      var blank: EmsFields := seq(EMS_WORDS, _ => 0);
      ems := new EmsFields[EMS_NUM_GENERATORS](_ => blank);
      new;
      assert Abs() == InitialSm(topo);
    }

    // ---- The search ----------------------------------------------------------------

    // `order` lists what ever entered the queue; its first `taken` have left it.
    ghost predicate Searching(q: Fifo.Queue, order: seq<nat>, taken: nat)
      reads sw, tx, sub, line, q, q.Repr
    {
      && Shape() && q.Valid() && q.Repr !! {this, sw, tx, sub, line, stat, pnnl, ems}
      && taken <= |order| && q.Contents() == order[taken..]
      && Sound(topo, sw[..], tx[..], sub[..], line[..]) && Entered(sub[..], order) && sub[0] == 1
    }

    // Power along line `l` from substation `a` to substation `b`.
    method Follow(q: Fifo.Queue, l: nat, b: nat, ghost a: nat, ghost order: seq<nat>, ghost taken: nat)
      returns (ghost order': seq<nat>)
      requires Searching(q, order, taken)
      requires a < |topo.subs| && tx[a] != 0 && topo.Powered(sw[..], tx[..], a) && l < |topo.lines| && b < |topo.subs|
      requires || (l in topo.subs[a].outLines && b == topo.lines[l].destSub)
               || (l in topo.subs[a].inLines && b == topo.lines[l].srcSub)
      modifies sub, line, q.Repr
      ensures Searching(q, order', taken) && fresh(q.Repr - old(q.Repr)) && order <= order'
      ensures Grows(old(sub[..]), sub[..]) && Grows(old(line[..]), line[..])
      ensures Followed(topo, sw[..], sub[..], line[..], l, b)
    {
      hide Sound, Entered, Topology.Valid, Topology.Powered, Fifo.Queue.Valid, Fifo.Queue.Contents;
      order' := order;
      ghost var marks, lit := sub[..], line[..];
      ValidEnds(topo, l);
      if sw[topo.lines[l].srcSw] == 1 && sw[topo.lines[l].destSw] == 1 {
        MarkKeeps(topo, sw[..], tx[..], marks, lit, order, a, l, b);
        line[l] := 1;
        assert line[..] == lit[l := 1];
        if sub[b] == 0 {
          sub[b] := 1;
          assert sub[..] == marks[b := 1];
          q.Enqueue(b);
          order' := order + [b];
        } else {
          assert sub[..] == marks[b := 1] by { MarkedIsOne(topo, sw[..], tx[..], marks, lit, b); }
        }
      }
    }

    // Follows every line of substation `a`, outgoing ones first.
    method Expand(q: Fifo.Queue, a: nat, ghost order: seq<nat>, ghost taken: nat) returns (ghost order': seq<nat>)
      requires Searching(q, order, taken) && a < |topo.subs| && tx[a] != 0 && topo.Powered(sw[..], tx[..], a)
      modifies sub, line, q.Repr
      ensures Searching(q, order', taken) && fresh(q.Repr - old(q.Repr)) && order <= order'
      ensures Grows(old(sub[..]), sub[..]) && Grows(old(line[..]), line[..])
      ensures Expanded(topo, sw[..], tx[..], sub[..], line[..], a)
    {
      hide Sound, Entered, Topology.Valid, Topology.Powered, Fifo.Queue.Valid, Fifo.Queue.Contents;
      order' := order;
      ghost var w, marks, lit := sw[..], sub[..], line[..];
      LinesOf(topo, a);
      for z := 0 to |topo.subs[a].outLines|
        invariant Searching(q, order', taken) && fresh(q.Repr - old(q.Repr)) && order <= order'
        invariant Grows(marks, sub[..]) && Grows(lit, line[..])
        invariant OutDone(topo, w, sub[..], line[..], a, z)
      {
        ghost var m, t := sub[..], line[..];
        var l := topo.subs[a].outLines[z];
        order' := Follow(q, l, topo.lines[l].destSub, a, order', taken);
        DoneGrows(topo, w, m, t, sub[..], line[..], a, z);
      }
      for z := 0 to |topo.subs[a].inLines|
        invariant Searching(q, order', taken) && fresh(q.Repr - old(q.Repr)) && order <= order'
        invariant Grows(marks, sub[..]) && Grows(lit, line[..])
        invariant OutDone(topo, w, sub[..], line[..], a, |topo.subs[a].outLines|)
        invariant InDone(topo, w, sub[..], line[..], a, z)
      {
        ghost var m, t := sub[..], line[..];
        var l := topo.subs[a].inLines[z];
        order' := Follow(q, l, topo.lines[l].srcSub, a, order', taken);
        DoneGrows(topo, w, m, t, sub[..], line[..], a, z);
        DoneGrows(topo, w, m, t, sub[..], line[..], a, |topo.subs[a].outLines|);
      }
    }

    /** The breadth-first search: every substation enters the queue at most once,
        exactly the powered ones do, and the marks end up exact. */
    method Search() returns (ghost order: seq<nat>)
      requires Shape()
      modifies sub, line
      ensures sub[..] == topo.SubStatuses(sw[..], tx[..])
      ensures forall l | 0 <= l < line.Length :: line[l] == if topo.Energized(sw[..], tx[..], l) then 1 else 0
      ensures NoRepeats(order) && forall i: nat :: i in order <==> topo.Powered(sw[..], tx[..], i)
    {
      hide Sound, Entered, Topology.Valid, Topology.Powered, Fifo.Queue.Valid, Fifo.Queue.Contents,
        Topology.Energized, Expanded;
      var q := new Fifo.Queue();
      order := [0];
      ghost var taken := 0;
      Start();
      q.Enqueue(0);
      var empty := q.IsEmpty();
      while !empty
        invariant Searching(q, order, taken) && fresh(q.Repr) && empty == (q.Contents() == [])
        invariant AllExpanded(topo, sw[..], tx[..], sub[..], line[..], order, taken)
        decreases |topo.subs| - taken
      {
        order := TakeOne(q, order, taken);
        taken := taken + 1;
        empty := q.IsEmpty();
      }
      assert taken == |order| && sub[..][0] == sub[0];
      SearchExact(topo, sw[..], tx[..], sub[..], line[..], order);
      q.Delete();
    }

    // Expands the substation at the front of the queue.
    method TakeOne(q: Fifo.Queue, ghost order: seq<nat>, ghost taken: nat) returns (ghost order': seq<nat>)
      requires Searching(q, order, taken) && taken < |order|
      requires AllExpanded(topo, sw[..], tx[..], sub[..], line[..], order, taken)
      modifies sub, line, q.Repr
      ensures taken < |topo.subs| && taken < |order'| && Searching(q, order', taken + 1) && fresh(q.Repr - old(q.Repr))
      ensures AllExpanded(topo, sw[..], tx[..], sub[..], line[..], order', taken + 1)
    {
      hide Sound, Entered, Topology.Valid, Topology.Powered, Fifo.Queue.Valid, Fifo.Queue.Contents, Expanded,
        AllExpanded;
      order' := order;
      ghost var marks, lit := sub[..], line[..];
      Head(topo, sw[..], tx[..], marks, lit, order, taken);
      var r := q.Dequeue();
      assert order[taken..][1..] == order[taken + 1..];
      if tx[r.value] != 0 {
        order' := Expand(q, r.value, order, taken + 1);
      }
      ExpandedGrows(topo, sw[..], tx[..], marks, lit, sub[..], line[..], order, order', taken);
      OneMore(topo, sw[..], tx[..], sub[..], line[..], order', taken);
    }

    // Only substation 0 is marked at first.
    method Start()
      requires Shape()
      modifies sub, line
      ensures Sound(topo, sw[..], tx[..], sub[..], line[..]) && Entered(sub[..], [0]) && sub[0] == 1
    {
      hide Topology.Powered, Topology.Energized;
      sub[0] := 1;
      for j := 1 to sub.Length
        invariant sub[0] == 1 && forall i | 1 <= i < j :: sub[i] == 0
      {
        sub[j] := 0;
      }
      for j := 0 to line.Length
        modifies line
        invariant forall i | 0 <= i < j :: line[i] == 0
      {
        line[j] := 0;
      }
      SourcePowered(topo, sw[..], tx[..]);
    }

    // ---- The status array --------------------------------------------------------------

    ghost function Abs(): Sm
      reads sw, tx, stat, pnnl, ems
      requires Shape()
    {
      Sm(sw[..], tx[..], stat[..], pnnl[..], ems[..])
    }

    method WriteStat(ids: seq<nat>, vals: array<byte>)
      requires |ids| == vals.Length && stat != vals && (forall i | 0 <= i < |ids| :: ids[i] < stat.Length)
      modifies stat
      ensures stat[..] == WriteAll(old(stat[..]), ids, vals[..])
    {
      ghost var s := stat[..];
      for i := 0 to |ids|
        invariant stat[..] == WriteAll(s, ids[..i], vals[..i])
      {
        assert ids[..i + 1][..i] == ids[..i] && vals[..i + 1][..i] == vals[..i];
        stat[ids[i]] := vals[i];
      }
      assert ids[..|ids|] == ids && vals[..|ids|] == vals[..];
    }

    // Lines whose source switch is tripped raise an alarm.
    method RaiseAlarms()
      requires Shape()
      requires forall l | 0 <= l < line.Length :: line[l] == if topo.Energized(sw[..], tx[..], l) then 1 else 0
      modifies line
      ensures line[..] == topo.LineStatuses(sw[..], tx[..])
    {
      hide Topology.Energized;
      for i := 0 to line.Length
        invariant forall l | 0 <= l < i :: line[l] == topo.LineStatus(sw[..], tx[..], l)
        invariant forall l | i <= l < line.Length :: line[l] == if topo.Energized(sw[..], tx[..], l) then 1 else 0
      {
        ValidEnds(topo, i);
        if sw[topo.lines[i].srcSw] == 2 {
          line[i] := 2;
        }
      }
    }

    /** process(): substations, lines and the status array follow from switches
        and transformers alone. */
    method Process()
      requires Valid()
      modifies sub, line, stat
      ensures Valid() && Abs() == ScadaSpec.Process(topo, old(Abs()))
      ensures sub[..] == topo.SubStatuses(sw[..], tx[..]) && line[..] == topo.LineStatuses(sw[..], tx[..])
    {
      hide Topology.Powered, Topology.Energized, WriteAll, Topology.Untouched;
      var _ := Search();
      RaiseAlarms();
      StatForgetsPast(topo, stat[..], sw[..], tx[..]);
      IdsFit(topo);
      WriteStat(topo.swIds, sw);
      WriteStat(topo.LineIds(), line);
      WriteStat(topo.SubIds(), sub);
      WriteStat(topo.txIds, tx);
    }

    // ---- Field data -----------------------------------------------------------------------

    /** The JHU part of read_from_rtu: values outside the known ones are ignored,
        and an update naming no substation changes nothing. */
    method ReadJhu(id: nat, txWord: int, words: SwitchWords)
      requires Valid()
      modifies sw, tx, sub, line, stat
      ensures Valid() && Abs() == ScadaSpec.ReadJhu(topo, old(Abs()), id, txWord, words)
    {
      hide Topology.Untouched, Topology.StatOf, MergeSwitches, Topology.Valid;
      if id >= |topo.subs| {
        return;
      }
      MergeList(topo.subs[id].switches, id, words);
      if txWord == 1 || txWord == 0 {
        tx[id] := txWord;
      }
      Process();
    }

    method MergeList(list: seq<nat>, id: nat, words: SwitchWords)
      requires Shape() && id < |topo.subs| && list == topo.subs[id].switches
      modifies sw
      ensures |list| <= |words| && (forall a | 0 <= a < |list| :: list[a] < sw.Length)
      ensures sw[..] == MergeSwitches(old(sw[..]), list, words)
    {
      hide Topology.Valid;
      SlotSize(topo, id);
      ghost var w := sw[..];
      for i := 0 to |list|
        invariant sw[..] == MergeSwitches(w, list[..i], words)
      {
        assert list[..i + 1][..i] == list[..i];
        if words[i] == 1 || words[i] == 0 || words[i] == 2 {
          sw[list[i]] := words[i];
        }
      }
      assert list[..|list|] == list;
    }

    // ---- Operator commands ---------------------------------------------------------------------

    // The searches of read_from_hmi: by identifier, over substations and their lists.
    method FindTransformer(pos: int) returns (r: Option<nat>)
      requires Shape()
      ensures r == FindTx(topo, pos, 0)
    {
      for i := 0 to |topo.txIds|
        invariant FindTx(topo, pos, i) == FindTx(topo, pos, 0)
      {
        if topo.txIds[i] == pos {
          return Some(i);
        }
      }
      return None;
    }

    method FindSwitchPlace(pos: int) returns (r: Option<(nat, nat)>)
      requires Shape()
      ensures r == FindSwitch(topo, pos, 0)
    {
      hide Topology.Valid;
      for i := 0 to |topo.subs|
        invariant FindSwitch(topo, pos, i) == FindSwitch(topo, pos, 0)
      {
        var list := topo.subs[i].switches;
        SlotSize(topo, i);
        for z := 0 to |list|
          invariant FindInList(topo, list, pos, z) == FindInList(topo, list, pos, 0)
        {
          if topo.swIds[list[z]] == pos {
            return Some((i, z));
          }
        }
      }
      return None;
    }

    /** read_from_rtu and the update sent to operators afterwards. */
    method OnRtu(sp: SeqPair, id: nat, sec: nat, usec: nat, body: RtuBody) returns (p: Option<Payload>)
      requires Valid()
      modifies sw, tx, sub, line, stat, pnnl, ems
      ensures Valid() && (Abs(), p) == ScadaSpec.OnRtu(topo, old(Abs()), sp, id, sec, usec, body)
    {
      hide Topology.Untouched, Topology.Valid;
      match body
      case Jhu(txWord, words) =>
        ReadJhu(id, txWord, words);
        p := Some(HmiUpdate(sp, JHU, sec, usec, Bytes(stat[..])));
      case Pnnl(fields) =>
        forall i | 0 <= i < RTU_DATA_PAYLOAD_LEN {
          pnnl[i] := fields[i];
        }
        assert pnnl[..] == fields && pnnl[PNNL_DATA_PADDING..] == fields[PNNL_DATA_PADDING..];
        p := Some(HmiUpdate(sp, PNNL, sec, usec, Bytes(pnnl[PNNL_DATA_PADDING..])));
        assert sw[..] == old(sw[..]) && tx[..] == old(tx[..]) && stat[..] == old(stat[..]) && ems[..] == old(ems[..]);
        assert Abs() == old(Abs()).(pnnl := fields);
      case Ems(words) =>
        if words[0] >= EMS_NUM_GENERATORS {
          return None;
        }
        ems[words[0]] := words;
        assert ems[..] == old(ems[..])[words[0] := words];
        p := Some(HmiUpdate(sp, EMS, sec, usec, Words(words)));
      case UnknownScenario(_) =>
        p := None;
    }

    /** read_from_hmi: the feedback for the field device the command names, if it
        can act. */
    method OnHmi(sp: SeqPair, scen: nat, kind: int, pos: int) returns (p: Option<Payload>)
      requires Valid()
      modifies ems
      ensures Valid() && (Abs(), p) == ScadaSpec.OnHmi(topo, old(Abs()), sp, scen, kind, pos)
    {
      hide Topology.Untouched, Topology.Valid, FindTx, FindSwitch;
      p := None;
      if scen == JHU {
        if kind == TRANSFORMER {
          var i := FindTransformer(pos);
          if i.Some? && i.value < tx.Length {
            p := Some(RtuFeedback(sp, scen, TRANSFORMER, i.value, i.value, 0, if tx[i.value] == 0 then 1 else 0));
          }
        } else if kind == SWITCH {
          var f := FindSwitchPlace(pos);
          if f.Some? {
            var (i, z) := f.value;
            SlotSize(topo, i);
            var status := sw[topo.subs[i].switches[z]];
            if status != 2 {
              p := Some(RtuFeedback(sp, scen, SWITCH, i, i, z, if status == 0 then 1 else 0));
            }
          }
        }
      } else if scen == PNNL {
        if 0 <= pos < NUM_BREAKER {
          var val := if kind == BREAKER_FLIP then Flip(pnnl[PNNL_WRITE_OFFSET + pos])
                     else if kind == BREAKER_ON then 1 else 0;
          p := Some(RtuFeedback(sp, scen, BREAKER, PNNL_RTU_ID, PNNL_RTU_ID, pos, val));
        }
      } else if scen == EMS {
        if 0 <= pos < EMS_NUM_GENERATORS {
          ems[pos] := ems[pos][EMS_TARGET_WORD := kind % EMS_WORD];
          p := Some(RtuFeedback(sp, scen, EMS_TARGET_SET, EMS_RTU_ID_BASE + pos, EMS_RTU_ID_BASE + pos, 0,
                                ToSigned(ems[pos][EMS_TARGET_WORD])));
        }
      }
    }

    // ---- Packing -----------------------------------------------------------------------------

    /** package_and_send_state: fills a fixed buffer slot by slot and never runs past it. */
    method PackState() returns (buf: array<byte>, size: nat)
      requires Valid()
      ensures size <= buf.Length == MAX_STATE && buf[..size] == Pack(topo, sw[..], tx[..], pnnl[..])
    {
      hide Topology.Untouched, PackSub, Topology.Valid;
      buf, size := new byte[MAX_STATE](_ => 0), 0;
      for i := 0 to |topo.subs|
        invariant fresh(buf) && size <= 19 * i && buf[..size] == PackSubs(topo, sw[..], tx[..], i)
      {
        SlotSize(topo, i);
        size := PackSlot(buf, size, i);
      }
      size := Put(buf, size, U32(PNNL_RTU_ID));
      size := Put(buf, size, U32(0));
      size := Put(buf, size, pnnl[PNNL_DATA_PADDING..]);
    }

    // One substation's slot: header, transformer, switches.
    method PackSlot(buf: array<byte>, at: nat, i: nat) returns (next: nat)
      requires Valid() && i < |topo.subs| && buf !in {sw, tx, sub, line, stat, pnnl}
      requires at + SLOT_HEADER + 1 + |topo.subs[i].switches| <= buf.Length
      modifies buf
      ensures next == at + SLOT_HEADER + 1 + |topo.subs[i].switches|
      ensures buf[..next] == old(buf[..at]) + PackSub(topo, sw[..], tx[..], i)
    {
      hide Topology.Untouched;
      var list := topo.subs[i].switches;
      SlotSize(topo, i);
      next := Put(buf, at, U32(i));
      next := Put(buf, next, U32(1 + |list|));
      next := Put(buf, next, [tx[i]]);
      ghost var front := buf[..next];
      for j := 0 to |list|
        invariant next == |front| + j && buf[..next] == front + SwitchBytes(sw[..], list)[..j]
      {
        buf[next] := sw[list[j]];
        next := next + 1;
      }
    }

    // Copies bytes to the cursor and moves it.
    method Put(buf: array<byte>, at: nat, bytes: seq<byte>) returns (next: nat)
      requires at + |bytes| <= buf.Length
      modifies buf
      ensures next == at + |bytes| && buf[..next] == old(buf[..at]) + bytes
    {
      forall i | 0 <= i < |bytes| {
        buf[at + i] := bytes[i];
      }
      next := at + |bytes|;
    }

    // ---- Unpacking ---------------------------------------------------------------------------

    // Reads one slot at the cursor into the arrays.  Not ok: the source would
    // leave its arrays.
    method ReadSlot(b: seq<byte>, pos: nat) returns (next: nat, ok: bool)
      requires Shape()
      modifies sw, tx
      ensures ok <==> UnpackSub(topo, Reader(old(sw[..]), old(tx[..]), pos), b).Some?
      ensures ok ==> Some(Reader(sw[..], tx[..], next)) == UnpackSub(topo, Reader(old(sw[..]), old(tx[..]), pos), b)
    {
      next, ok := pos, false;
      if pos + SLOT_HEADER > |b| {
        return;
      }
      var i, n := ReadU32(b, pos), ReadU32(b, pos + 4);
      var f := pos + SLOT_HEADER;
      if i >= |topo.subs| || n == 0 || f + n > |b| || n - 1 > |topo.subs[i].switches| {
        return;
      }
      SlotSize(topo, i);
      ghost var w := sw[..];
      var list, vals := topo.subs[i].switches, b[f + 1..f + n];
      tx[i] := b[f];
      for j := 0 to n - 1
        modifies sw
        invariant sw[..] == SetSwitches(w, list, vals[..j])
      {
        assert vals[..j + 1][..j] == vals[..j];
        sw[list[j]] := vals[j];
      }
      assert vals[..n - 1] == vals;
      assert tx[..] == old(tx[..])[i := b[f]];
      next, ok := f + n, true;
    }

    method ReadSlots(b: seq<byte>, count: nat) returns (pos: nat, ok: bool)
      requires Shape()
      modifies sw, tx
      ensures ok <==> UnpackSubs(topo, Reader(old(sw[..]), old(tx[..]), 0), b, count).Some?
      ensures ok ==>
                Some(Reader(sw[..], tx[..], pos)) == UnpackSubs(topo, Reader(old(sw[..]), old(tx[..]), 0), b, count)
    {
      hide UnpackSub;
      ghost var r0 := Reader(sw[..], tx[..], 0);
      pos, ok := 0, true;
      for i := 0 to count
        invariant ok && Some(Reader(sw[..], tx[..], pos)) == UnpackSubs(topo, r0, b, i)
      {
        pos, ok := ReadSlot(b, pos);
        if !ok {
          NoneStays(topo, r0, b, i + 1, count);
          return;
        }
      }
    }

    // The source's apply_state gets through: it drops the state or finds it well formed.
    predicate Installs(x: StateXfer, sws: seq<byte>, txs: seq<byte>, fields: seq<byte>)
      requires topo.Valid() && topo.Fits(sws, txs) && |fields| == RTU_DATA_PAYLOAD_LEN
    {
      || x.target != me || SIGNED_HEADER + XFER_HEADER + |x.state| > MAX_LEN
      || Unpack(topo, sws, txs, fields, x.numClients, x.state).Some?
    }

    /** apply_state: states for other replicas and over-long ones are dropped;
        otherwise the statuses are restored and processed.  Not ok: the source's
        assertion on the size fails, or it reads or writes outside its arrays. */
    method ApplyState(x: StateXfer) returns (ok: bool)
      requires Valid()
      modifies sw, tx, sub, line, stat, pnnl
      ensures ok <==> Installs(x, old(sw[..]), old(tx[..]), old(pnnl[..]))
      ensures ok ==> Valid() && Abs() == Install(topo, me, old(Abs()), x)
    {
      hide Topology.Untouched, Topology.Valid, UnpackSubs, Topology.StatOf;
      if x.target != me || SIGNED_HEADER + XFER_HEADER + |x.state| > MAX_LEN {
        return true;
      }
      if x.numClients == 0 {
        return false;
      }
      var pos;
      pos, ok := ReadSlots(x.state, x.numClients - 1);
      ok := ok && pos + SLOT_HEADER + PNNL_BYTES == |x.state|;
      if ok {
        CopyPnnl(x.state[pos + SLOT_HEADER..]);
        Process();
      }
    }

    method CopyPnnl(bytes: seq<byte>)
      requires Shape() && |bytes| == PNNL_BYTES
      modifies pnnl
      ensures pnnl[..] == old(pnnl[..])[..PNNL_DATA_PADDING] + bytes
    {
      forall i | 0 <= i < PNNL_BYTES {
        pnnl[PNNL_DATA_PADDING + i] := bytes[i];
      }
    }

    // ---- The master's loop -------------------------------------------------------------------

    method Fill(a: array<byte>, b: byte)
      modifies a
      ensures a[..] == seq(a.Length, _ => b)
    {
      for i := 0 to a.Length
        invariant forall k | 0 <= k < i :: a[k] == b
      {
        a[i] := b;
      }
    }

    /** SYSTEM_RESET: everything closed and shown powered, PNNL data blank; EMS data stays. */
    method Reset()
      requires Valid()
      modifies sw, tx, sub, line, stat, pnnl
      ensures Valid() && Abs() == OnReset(topo, old(Abs()))
      ensures sub[..] == Ones(sub.Length) && line[..] == Ones(line.Length)
    {
      hide Topology.Valid;
      Fill(sw, 1);
      Fill(tx, 1);
      Fill(sub, 1);
      Fill(line, 1);
      Fill(stat, 1);
      Fill(pnnl, 0);
      assert Abs() == InitialSm(topo).(ems := ems[..]);
    }

    method OnUpdate(u: Update) returns (p: Option<Payload>)
      requires Valid()
      modifies sw, tx, sub, line, stat, pnnl, ems
      ensures Valid() && (Abs(), p) == ScadaSpec.OnUpdate(topo, old(Abs()), u)
    {
      hide Topology.Valid, Topology.Untouched, ScadaSpec.OnRtu, ScadaSpec.OnHmi;
      match u
      case RtuData(sp, id, sec, usec, body) => p := OnRtu(sp, id, sec, usec, body);
      case HmiCommand(sp, _, scen, kind, pos) =>
        p := OnHmi(sp, scen, kind, pos);
      case Benchmark(sp, sender, ps, pu, _, _) => p := Some(BenchmarkReply(sp, sender, ps, pu, 0, 0));
      case _ => p := None;
    }

    /** One turn of the master's loop takes the specified step.  Not ok: only an
        installed state can fail, as in ApplyState. */
    method Handle(m: SmMsg) returns (ok: bool, reply: Option<SmReply>)
      requires Valid()
      modifies sw, tx, sub, line, stat, pnnl, ems
      ensures ok <==> (m.InstallState? ==> Installs(m.xfer, old(sw[..]), old(tx[..]), old(pnnl[..])))
      ensures ok ==> Valid() && (Abs(), reply) == SmStep(topo, me, old(Abs()), m)
    {
      hide Topology.Valid, Topology.Untouched, ScadaSpec.OnUpdate, OnReset, Install, Unpack, Pack;
      ok, reply := true, None;
      match m
      case Forward(_, u) =>
        var p := OnUpdate(u);
        if p.Some? {
          reply := Some(Scada(p.value));
        }
      case StateRequest(_, target, latest) =>
        var buf, size := PackState();
        reply := Some(PackedState(target, latest, |topo.subs| + 1, buf[..size]));
      case InstallState(x) => ok := ApplyState(x);
      case ResetMaster => Reset();
    }
  }

  /** A state packed by one master and applied by another with the same grid: the
      receiver never trips over it, and no answer tells the two apart once the
      sender has processed its own state. */
  method TransferState(from: Master, to: Master, x: StateXfer) returns (ok: bool)
    requires from.Valid() && to.Valid() && from.topo == to.topo && x.target == to.me
    requires {from.sw, from.tx, from.stat, from.pnnl} !! {to.sw, to.tx, to.sub, to.line, to.stat, to.pnnl}
              && from.ems != to.ems
    modifies to.sw, to.tx, to.sub, to.line, to.stat, to.pnnl
    ensures ok && to.Valid() && from.Valid() && from.Abs() == old(from.Abs())
    ensures Settled(to.topo, to.Abs()) && Equiv(to.Abs(), Process(from.topo, from.Abs()))
  {
    hide Topology.Valid, Topology.Untouched, Unpack, Pack, Settled, Equiv, Install, Process;
    var buf, size := from.PackState();
    var sent := x.(numClients := |from.topo.subs| + 1, state := buf[..size]);
    PackedSize(from.topo, from.sw[..], from.tx[..], from.pnnl[..]);
    RoundTrip(to.topo, from.sw[..], from.tx[..], from.pnnl[..], to.sw[..], to.tx[..], to.pnnl[..]);
    InstallCopies(to.topo, to.me, from.Abs(), to.Abs(), sent);
    ok := to.ApplyState(sent);
  }

  lemma {:induction false} NoneStays(topo: Topology, r: Reader, b: seq<byte>, i: nat, n: nat)
    requires topo.Valid() && topo.Fits(r.sw, r.tx) && i <= n && UnpackSubs(topo, r, b, i).None?
    ensures UnpackSubs(topo, r, b, n).None?
    decreases n
  {
    if i < n {
      NoneStays(topo, r, b, i, n - 1);
    }
  }

  const MAX_STATE := MAX_LEN - SIGNED_HEADER - XFER_HEADER

  lemma SlotSize(topo: Topology, i: nat)
    requires topo.Valid() && i < |topo.subs|
    ensures |topo.subs[i].switches| <= MAX_SWITCHES
    ensures forall a | 0 <= a < |topo.subs[i].switches| :: topo.subs[i].switches[a] < |topo.swIds|
  {
    assert topo.ValidSub(i);
  }

  lemma IdsFit(topo: Topology)
    requires topo.Valid()
    ensures forall i | 0 <= i < |topo.swIds| :: topo.swIds[i] < topo.statLen
    ensures forall i | 0 <= i < |topo.LineIds()| :: topo.LineIds()[i] < topo.statLen
    ensures forall i | 0 <= i < |topo.SubIds()| :: topo.SubIds()[i] < topo.statLen
    ensures forall i | 0 <= i < |topo.txIds| :: topo.txIds[i] < topo.statLen
  {
    forall i | 0 <= i < |topo.LineIds()| ensures topo.LineIds()[i] < topo.statLen {
      assert topo.ValidLine(topo.lines[i]);
    }
  }

  lemma LinesOf(topo: Topology, a: nat)
    requires topo.Valid() && a < |topo.subs|
    ensures forall z | 0 <= z < |topo.subs[a].outLines| :: LineOf(topo, topo.subs[a].outLines[z])
    ensures forall z | 0 <= z < |topo.subs[a].inLines| :: LineOf(topo, topo.subs[a].inLines[z])
  {
    assert topo.ValidSub(a);
  }

  predicate LineOf(topo: Topology, l: nat) {
    l < |topo.lines| && topo.lines[l].destSub < |topo.subs| && topo.lines[l].srcSub < |topo.subs|
  }

  // The substation at the front of the queue.
  lemma Head(topo: Topology, sw: seq<byte>, tx: seq<byte>, sub: seq<byte>, line: seq<byte>, order: seq<nat>, taken: nat)
    requires topo.Valid() && topo.Fits(sw, tx) && Sound(topo, sw, tx, sub, line) && Entered(sub, order)
              && taken < |order|
    ensures order[taken] < |topo.subs| && topo.Powered(sw, tx, order[taken]) && taken < |topo.subs|
    ensures Grows(sub, sub) && Grows(line, line)
  {
    AtMostAll(order, |sub|);
  }

  lemma OneMore(topo: Topology, sw: seq<byte>, tx: seq<byte>, sub: seq<byte>, line: seq<byte>, order: seq<nat>,
                taken: nat)
    requires topo.Valid() && topo.Fits(sw, tx) && AllExpanded(topo, sw, tx, sub, line, order, taken) && taken < |order|
    requires order[taken] < |topo.subs| && (tx[order[taken]] != 0 ==> Expanded(topo, sw, tx, sub, line, order[taken]))
    ensures AllExpanded(topo, sw, tx, sub, line, order, taken + 1)
  {
  }

  lemma ValidEnds(topo: Topology, l: nat)
    requires topo.Valid() && l < |topo.lines|
    ensures topo.ValidLine(topo.lines[l])
  {
  }

  lemma MarkedIsOne(topo: Topology, sw: seq<byte>, tx: seq<byte>, sub: seq<byte>, line: seq<byte>, b: nat)
    requires topo.Valid() && topo.Fits(sw, tx) && Sound(topo, sw, tx, sub, line) && b < |sub| && sub[b] != 0
    ensures sub[b] == 1
  {
  }
}
