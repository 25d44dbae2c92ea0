/** The auth_chain frame format: what one frame is and what taking one does to either end. */
module AuthChainSpec {
  import opened Octets
  import opened Random
  import opened StreamDecoder
  import opened AuthChainPadding

  // Frames

  type PaddingRule = r: (nat, Block, Generator) -> Padded | Lawful(r)
    ghost witness (RuleALawful(); RuleA())

  /** What both ends of one direction share once the header has been exchanged. */
  datatype Config = Config(
    userKey: Bytes,
    hmac: (Bytes, Bytes) -> Block,
    keystream: nat -> Byte,
    padding: PaddingRule)

  /** One direction's state: last frame hash, generator, key stream offset, frame counter. */
  datatype State = State(hash: Block, gen: Generator, offset: nat, id: UInt32)

  datatype Error = LengthError | ChecksumError | Panic

  function MacKey(cfg: Config, id: UInt32): Bytes {
    cfg.userKey + Le32(id)
  }

  function LengthMask(hash: Block): UInt16 {
    FromLe16(hash[14..16])
  }

  function Bump(id: UInt32): UInt32 {
    (id + 1) % 0x1_0000_0000
  }

  /** Where the data starts inside the padding, and the generator after choosing it. */
  ghost function DataStart(length: nat, pad: nat, gen: Generator): (r: (nat, Generator))
    ensures r.0 <= pad
  {
    if length > 0 && pad > 0 then (Draw(gen) % 8589934609 % pad, Advance(gen)) else (0, gen)
  }

  /** The first frame in a direction carries two extra bytes in front of the data. */
  function Delivered(id: UInt32, payload: Bytes): Bytes
    requires id == 1 ==> |payload| >= 2
  {
    if id == 1 then payload[2..] else payload
  }

  /** One turn of the receiver's loop. */
  ghost function Receive(cfg: Config, s: State, buf: Bytes): Step<State, Error> {
    if |buf| <= 4 then More(s) else
    var length := Xor16(FromLe16(buf[..2]), LengthMask(s.hash));
    var padded := cfg.padding(length, s.hash, s.gen);
    var total := length + padded.pad;
    var s1 := s.(hash := padded.hash, gen := padded.gen);
    if total >= LENGTH_LIMIT then Stop(s1, LengthError)
    else if 4 + total > |buf| then More(s1)
    else
      var mac := cfg.hmac(MacKey(cfg, s.id), buf[..total + 2]);
      if mac[..2] != buf[total + 2..total + 4] then Stop(s1, ChecksumError)
      else Open(cfg, s1, mac, length, padded.pad, buf)
  }

  /** Takes the data out of an authentic frame. */
  ghost function Open(cfg: Config, s: State, mac: Block, length: nat, pad: nat, buf: Bytes): Step<State, Error>
    requires 4 + length + pad <= |buf|
  {
    var (start, gen) := DataStart(length, pad, s.gen);
    var payload := XorStream(cfg.keystream, s.offset, buf[2 + start..2 + start + length]);
    if s.id == 1 && length < 2 then Stop(State(mac, gen, s.offset + length, s.id), Panic)
    else Frame(State(mac, gen, s.offset + length, Bump(s.id)), Delivered(s.id, payload), length + pad + 4)
  }

  /** Room for random bytes in the frame that carries `length` bytes of data. */
  ghost function Room(cfg: Config, s: State, length: nat): nat {
    cfg.padding(length, s.hash, s.gen).pad
  }

  /** A frame up to its checksum: masked length, then the encrypted data inside its padding. */
  ghost function Body(cfg: Config, s: State, payload: Bytes, filler: Bytes): Bytes
    requires |filler| == Room(cfg, s, |payload|)
  {
    var padded := cfg.padding(|payload|, s.hash, s.gen);
    var start := DataStart(|payload|, padded.pad, padded.gen).0;
    Le16(Xor16(|payload| % 0x1_0000, LengthMask(s.hash)))
    + (filler[..start] + XorStream(cfg.keystream, s.offset, payload) + filler[start..])
  }

  /** The frame for `payload`, its padding filled with `filler`, and the sender's next state. */
  ghost function Send(cfg: Config, s: State, payload: Bytes, filler: Bytes): (Bytes, State)
    requires |filler| == Room(cfg, s, |payload|)
  {
    var body := Body(cfg, s, payload, filler);
    var mac := cfg.hmac(MacKey(cfg, s.id), body);
    var padded := cfg.padding(|payload|, s.hash, s.gen);
    var gen := DataStart(|payload|, padded.pad, padded.gen).1;
    (body + mac[..2], State(mac, gen, s.offset + |payload|, Bump(s.id)))
  }

  /** `wire` is a possible transmission of `payloads`, for some choice of random padding bytes. */
  ghost predicate Sends(cfg: Config, s: State, payloads: seq<Bytes>, wire: Bytes, s': State)
    decreases |payloads|
  {
    if payloads == [] then wire == [] && s' == s else
    exists filler | |filler| == Room(cfg, s, |payloads[0]|) ::
      var (frame, mid) := Send(cfg, s, payloads[0], filler);
      frame <= wire && Sends(cfg, mid, payloads[1..], wire[|frame|..], s')
  }

  /** What the receiver hands on for a list of payloads, two bytes short where the counter is 1. */
  function DeliveredAll(id: UInt32, payloads: seq<Bytes>): Bytes
    requires Sendable(id, payloads)
    decreases |payloads|
  {
    if payloads == [] then [] else
    Delivered(id, payloads[0]) + DeliveredAll(Bump(id), payloads[1..])
  }

  /** Payloads of 1 to 2800 bytes, at least 2 where the counter is 1. */
  predicate Sendable(id: UInt32, payloads: seq<Bytes>)
    decreases |payloads|
  {
    payloads == [] ||
    (1 <= |payloads[0]| <= CHUNK && (id == 1 ==> |payloads[0]| >= 2) && Sendable(Bump(id), payloads[1..]))
  }
}
