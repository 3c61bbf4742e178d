/** The messages replicas, SCADA masters, Prime and clients exchange, and the
    ideal threshold signature. */
module Packets {
  import opened Ordinals

  type byte = x: int | 0 <= x < 256

  datatype Option<+T> = None | Some(value: T)

  // Scenario and equipment codes
  const JHU := 1
  const PNNL := 2
  const EMS := 3
  const SWITCH := 0
  const TRANSFORMER := 1
  const BREAKER := 2
  const BREAKER_FLIP := 3
  const BREAKER_ON := 4
  const EMS_TARGET_SET := 0
  const PNNL_RTU_ID := 10
  const EMS_RTU_ID_BASE := 11

  // Array sizes
  const NUM_RTU := 17
  const MAX_EMU_RTU := 100
  const NUM_HMI := 3
  const NUM_CLIENTS := MAX_EMU_RTU + NUM_HMI + 1
  const MAX_SWITCHES := 10
  const RTU_DATA_PAYLOAD_LEN := 64
  const PNNL_DATA_PADDING := 4
  const NUM_BREAKER := 14
  const EMS_NUM_GENERATORS := 6
  const EMS_WORDS := 16
  const EMS_TARGET_WORD := 4

  // The fixed-size arrays of the message structures.
  type Progress = p: seq<SeqPair> | |p| == NUM_CLIENTS witness seq(NUM_CLIENTS, _ => SeqPair(0, 0))
  type ClientIndex = i: nat | i < NUM_CLIENTS
  type SwitchWords = w: seq<int> | |w| == MAX_SWITCHES witness seq(MAX_SWITCHES, _ => 0)
  type PnnlFields = b: seq<byte> | |b| == RTU_DATA_PAYLOAD_LEN witness seq(RTU_DATA_PAYLOAD_LEN, _ => 0)
  type EmsFields = w: seq<nat> | |w| == EMS_WORDS witness seq(EMS_WORDS, _ => 0)

  function NoProgress(): Progress {
    seq(NUM_CLIENTS, _ => SeqPair(0, 0))
  }

  // A deployment of 3f + 2k + 1 replicas, seen from replica `me`; `cc` tells a
  // control-center replica from a data-center one.
  datatype Config = Config(me: nat, f: nat, k: nat, cc: bool) {
    function NumSm(): nat { 3 * f + 2 * k + 1 }
    function ReqShares(): nat { f + 1 }
    predicate Valid() { 1 <= me <= NumSm() }
    predicate IsReplica(i: int) { 1 <= i <= NumSm() }
  }

  // RTU_DATA contents per scenario.
  datatype RtuBody =
    | Jhu(tx: int, sw: SwitchWords)
    | Pnnl(fields: PnnlFields)
    | Ems(words: EmsFields)
    | UnknownScenario(code: nat)

  // What Prime orders: client messages and Prime's own control messages.
  datatype Update =
    | NoOp(machine: nat)
    | StateTransfer(machine: nat)
    | SystemReset(machine: nat)
    | RtuData(seqp: SeqPair, rtuId: nat, sec: nat, usec: nat, body: RtuBody)
    | HmiCommand(seqp: SeqPair, hmiId: ClientIndex, scen: nat, kind: int, pos: int)
    | Benchmark(seqp: SeqPair, sender: ClientIndex, pingSec: nat, pingUsec: nat, pongSec: nat, pongUsec: nat)
    | OtherType(code: nat)
  {
    predicate FromClient() { RtuData? || HmiCommand? || Benchmark? }

    // The index of the client in the progress vector.
    function Client(): nat
      requires FromClient()
    {
      match this
      case RtuData(_, id, _, _, _) => id
      case HmiCommand(_, id, _, _, _) => id
      case Benchmark(_, id, _, _, _, _) => id
    }
  }

  // The part of ITRC_Validate_Message that concerns client messages.
  predicate ValidClient(u: Update)
    requires u.FromClient()
  {
    match u
    case RtuData(sp, id, _, _, body) =>
      && id < NUM_RTU && sp.num != 0
      && (match body
          case Jhu(_, _) => true
          case Pnnl(_) => true
          case Ems(words) => words[0] < EMS_NUM_GENERATORS
          case UnknownScenario(_) => false)
    case HmiCommand(_, _, _, _, _) => true
    case Benchmark(_, _, _, _, _, _) => true
  }

  // ITRC_Valid_Type at stage FROM_PRIME.
  predicate ValidFromPrime(cfg: Config, u: Update) {
    match u
    case NoOp(m) => m == cfg.me
    case StateTransfer(m) => m <= cfg.NumSm()
    case SystemReset(m) => m == cfg.me
    case OtherType(_) => false
    case _ => ValidClient(u)
  }

  datatype PrimeMsg = PrimeMsg(ord: Ordinal, update: Update)

  datatype ViewBody = Bytes(bytes: seq<byte>) | Words(words: seq<nat>)

  // What a SCADA master answers; the payload that is threshold-signed.
  datatype Payload =
    | HmiUpdate(seqp: SeqPair, scen: nat, sec: nat, usec: nat, view: ViewBody)
    | RtuFeedback(seqp: SeqPair, scen: nat, kind: int, sub: int, rtu: int, offset: int, val: int)
    | BenchmarkReply(seqp: SeqPair, sender: nat, pingSec: nat, pingUsec: nat, pongSec: nat, pongUsec: nat)
    | NoPayload

  // One replica's partial signature.  A genuine one is bound to its signer and
  // to the ordinal (with its event total) and payload in the digest.
  datatype PartialSig = Genuine(signer: nat, ord: Ordinal, payload: Payload) | Junk

  datatype ShareMsg = ShareMsg(ord: Ordinal, payload: Payload, sig: PartialSig)

  // A combined signature remembers which partial signature was used at which index.
  type ThreshSig = map<nat, PartialSig>

  datatype TcFinal = TcFinal(ord: Ordinal, payload: Payload, sig: ThreshSig)

  // The ideal threshold scheme: the combination verifies when at least f + 1
  // distinct indices hold genuine partial signatures on this very digest.
  predicate VerifyThresh(f: nat, fin: TcFinal) {
    && |fin.sig| >= f + 1
    && forall i | i in fin.sig :: fin.sig[i] == Genuine(i, fin.ord, fin.payload)
  }

  datatype StateXfer = StateXfer(ord: Ordinal, target: nat, latest: Progress, numClients: nat, state: seq<byte>)

  // What the channel hands to its SCADA master.  `at` is the ordinal the channel
  // records for the request; it is not part of the message.
  datatype SmMsg =
    | Forward(at: Ordinal, update: Update)
    | StateRequest(at: Ordinal, target: nat, latest: Progress)
    | InstallState(xfer: StateXfer)
    | ResetMaster

  // What the SCADA master answers.
  datatype SmReply =
    | Scada(payload: Payload)
    | PackedState(target: nat, latest: Progress, numClients: nat, state: seq<byte>)
}
