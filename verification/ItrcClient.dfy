/** The client side of the channel as the source runs it. */
module ItrcClient {
  import opened Ordinals
  import opened Packets
  import opened Deployment

  class ClientSide {
    // The last ordinal handed on, and everything handed on so far.
    var applied: Ordinal
    var handed: seq<TcFinal>

    ghost function Abs(): Client
      reads this
    {
      Client(applied, handed)
    }

    constructor ()
      ensures Abs() == Client(ZERO, [])
    {
      applied, handed := ZERO, [];
    }

    /** A message from a control center: dropped unless its threshold signature
        verifies, it carries a client message, and it is newer than the last. */
    method OnFinal(f: nat, fin: TcFinal)
      modifies this
      ensures Abs() == Receive(f, old(Abs()), fin)
      ensures if VerifyThresh(f, fin) && !fin.payload.NoPayload? && Less(old(applied), fin.ord)
              then handed == old(handed) + [fin] && applied == fin.ord
              else handed == old(handed) && applied == old(applied)
    {
      if !VerifyThresh(f, fin) {
        return;
      }
      if fin.payload.NoPayload? {
        return;
      }
      if Compare(fin.ord, applied) <= 0 {
        return;
      }
      applied := fin.ord;
      handed := handed + [fin];
    }
  }
}
