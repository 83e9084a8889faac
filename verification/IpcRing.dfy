/**
 The shared-page ring of ipc/ipc.c as interleaved steps.  Senders exclude each other by the channel lock, so
 there is one at a time; the receiver takes no lock.  A step is one access: the atomic increment that claims
 a sequence number, one header field or one byte of the slot written or read.  `sent` and `got` record what
 was claimed and what was delivered.
 */
module IpcRing {
  import opened ByteSeq
  import opened Hkdf
  import CryptoIpc

  const PAGES: nat := 8 * 4096
  const RING_HEADER: nat := 80
  const SLOTS: nat := 64
  const SLOT_SIZE: nat := (PAGES - RING_HEADER) / SLOTS
  const MESSAGE_HEADER: nat := 64
  const LARGEST: nat := SLOT_SIZE - MESSAGE_HEADER

  const EAGAIN: int := 35
  const EBADMSG: int := 74
  const EMSGSIZE: int := 90
  const ERANGE: int := 34

  /** Where slot `k` starts in the shared pages. */
  function SlotOffset(k: nat): nat { RING_HEADER + k * SLOT_SIZE }

  /** Slots lie behind the header, inside the pages and apart from each other. */
  lemma SlotsApart(j: nat, k: nat)
    requires j < k < SLOTS
    ensures LARGEST == 446
    ensures RING_HEADER <= SlotOffset(j) && SlotOffset(j) + SLOT_SIZE <= SlotOffset(k)
            && SlotOffset(k) + SLOT_SIZE <= PAGES
  {
  }

  // ---------------------------------------------------------------- messages and slots

  datatype Message = Message(sender: nat, data: Bytes)

  predicate Fits(m: Message) { |m.data| <= LARGEST }

  datatype Slot = Slot(number: nat, sender: nat, len: nat, data: Bytes, mac: Bytes)

  predicate Shaped(s: Slot) { |s.data| == LARGEST && |s.mac| == 32 && s.len <= LARGEST }

  const ZEROED: Slot := Slot(0, 0, 0, Repeat(0, LARGEST), Repeat(0, 32))

  function PutLe64(n: nat): (r: Bytes)
    ensures |r| == 8
  {
    CryptoIpc.PutLe32(n) + CryptoIpc.PutLe32(n / 0x1_0000_0000)
  }

  /** The receipt: HMAC over sequence number, sender and payload. */
  function Receipt(key: Bytes, number: nat, sender: nat, data: Bytes): (r: Bytes)
    ensures |r| == 32
  {
    Hmac(key, PutLe64(number) + CryptoIpc.PutLe32(sender) + data)
  }

  /** The words of a message in the order they are written: number, sender, length, payload bytes, receipt bytes. */
  function Words(m: Message): nat { 3 + |m.data| + 32 }

  function PutWord(s: Slot, key: Bytes, number: nat, m: Message, k: nat): (t: Slot)
    requires Shaped(s) && Fits(m) && k < Words(m)
    ensures Shaped(t)
  {
    if k == 0 then s.(number := number)
    else if k == 1 then s.(sender := m.sender)
    else if k == 2 then s.(len := |m.data|)
    else if k < 3 + |m.data| then s.(data := s.data[k - 3 := m.data[k - 3]])
    else s.(mac := s.mac[k - 3 - |m.data| := Receipt(key, number, m.sender, m.data)[k - 3 - |m.data|]])
  }

  /** The first `k` words of the message are in the slot. */
  ghost predicate HasWords(s: Slot, key: Bytes, number: nat, m: Message, k: nat)
    requires Shaped(s) && Fits(m)
  {
    && (k > 0 ==> s.number == number) && (k > 1 ==> s.sender == m.sender) && (k > 2 ==> s.len == |m.data|)
    && (forall i | 0 <= i < |m.data| && i + 3 < k :: s.data[i] == m.data[i])
    && (forall i | 0 <= i < 32 && i + 3 + |m.data| < k :: s.mac[i] == Receipt(key, number, m.sender, m.data)[i])
  }

  ghost predicate Holds(s: Slot, key: Bytes, number: nat, m: Message)
    requires Shaped(s) && Fits(m)
  {
    HasWords(s, key, number, m, Words(m))
  }

  lemma PutNext(s: Slot, key: Bytes, number: nat, m: Message, k: nat)
    requires Shaped(s) && Fits(m) && k < Words(m) && HasWords(s, key, number, m, k)
    ensures HasWords(PutWord(s, key, number, m, k), key, number, m, k + 1)
  {
    hide Receipt;
  }

  lemma HoldsParts(s: Slot, key: Bytes, number: nat, m: Message)
    requires Shaped(s) && Fits(m) && Holds(s, key, number, m)
    ensures s.number == number && s.sender == m.sender && s.len == |m.data|
    ensures s.data[..|m.data|] == m.data && s.mac == Receipt(key, number, m.sender, m.data)
  {
    hide Receipt;
  }

  // ---------------------------------------------------------------- the two sides

  /** The lock holder has written `words` words of the message it claimed the last number for. */
  datatype Sender = Resting | Writing(m: Message, words: nat)

  /** How far `ipc_recv` is and what it has read: the length, number and sender, the payload for the receipt,
      the receipt, and then payload and sender once more for the caller. */
  datatype Receiver =
    | Idle
    | AtLen(room: nat)
    | AtNumber(len: nat)
    | AtSender(len: nat, number: nat)
    | Gathering(len: nat, number: nat, sender: nat, data: Bytes)
    | Comparing(number: nat, sender: nat, data: Bytes, mac: Bytes)
    | Copying(len: nat, number: nat, out: Bytes)
    | AtCaller(number: nat, out: Bytes)

  datatype Reply = Delivered(number: nat, message: Message) | Failed(code: int)

  datatype Ring = Ring(key: Bytes, write: nat, read: nat, slots: seq<Slot>, sender: Sender, receiver: Receiver,
                       sent: seq<Message>, replies: seq<Reply>)

  function Fresh(key: Bytes): Ring { Ring(key, 0, 0, Blank(SLOTS), Resting, Idle, [], []) }

  function Blank(n: nat): (r: seq<Slot>)
    ensures |r| == n && forall s <- r :: s == ZEROED
  {
    if n == 0 then [] else Blank(n - 1) + [ZEROED]
  }

  /** Messages whose slot is completely written, and messages whose slot has begun to be written. */
  function Filled(r: Ring): int { if r.sender.Writing? then r.write - 1 else r.write }

  function Begun(r: Ring): int { if r.sender.Writing? && r.sender.words == 0 then r.write - 1 else r.write }

  datatype Step = Claim(m: Message) | Put | Begin(room: nat) | Look

  predicate RingShaped(r: Ring)
  {
    && |r.slots| == SLOTS && (forall s <- r.slots :: Shaped(s))
    && |r.sent| == r.write && (forall m <- r.sent :: Fits(m)) && r.read <= r.write
    && (r.sender.Writing? ==> r.write > 0 && r.sender.m == r.sent[r.write - 1] && r.sender.words < Words(r.sender.m))
    && (match r.receiver
        case Gathering(len, _, _, data) => len <= LARGEST && |data| <= len
        case Comparing(_, _, data, mac) => |data| <= LARGEST && |mac| <= 32
        case Copying(len, _, out) => len <= LARGEST && |out| <= len
        case AtNumber(len) => len <= LARGEST
        case AtSender(len, _) => len <= LARGEST
        case _ => true)
    && (r.receiver != Idle ==> r.read < r.write)
  }

  /** The lock, and one receive at a time; longer messages are refused before the lock is taken. */
  predicate Enabled(r: Ring, step: Step)
  {
    match step
    case Claim(m) => r.sender.Resting? && Fits(m)
    case Put => r.sender.Writing?
    case Begin(room) => r.receiver.Idle?
    case Look => !r.receiver.Idle?
  }

  /** The slot the receiver looks at. */
  function Here(r: Ring): (s: Slot)
    requires RingShaped(r)
    ensures Shaped(s)
  {
    assert r.slots[r.read % SLOTS] in r.slots;
    r.slots[r.read % SLOTS]
  }

  function Answer(r: Ring, reply: Reply): Ring { r.(receiver := Idle, replies := r.replies + [reply]) }

  /** One access of the receiver. */
  function LookStep(r: Ring): Ring
    requires RingShaped(r) && !r.receiver.Idle?
  {
    var s := Here(r);
    match r.receiver
    case AtLen(room) => if s.len > room then Answer(r, Failed(-ERANGE)) else r.(receiver := AtNumber(s.len))
    case AtNumber(len) => r.(receiver := AtSender(len, s.number))
    case AtSender(len, number) => r.(receiver := Gathering(len, number, s.sender, []))
    case Gathering(len, number, sender, data) =>
      if |data| < len then r.(receiver := Gathering(len, number, sender, data + [s.data[|data|]]))
      else r.(receiver := Comparing(number, sender, data, []))
    case Comparing(number, sender, data, mac) =>
      if |mac| < 32 then r.(receiver := Comparing(number, sender, data, mac + [s.mac[|mac|]]))
      else if mac != Receipt(r.key, number, sender, data) then Answer(r, Failed(-EBADMSG))
      else r.(receiver := Copying(|data|, number, []))
    case Copying(len, number, out) =>
      if |out| < len then r.(receiver := Copying(len, number, out + [s.data[|out|]]))
      else r.(receiver := AtCaller(number, out))
    case AtCaller(number, out) => Answer(r.(read := r.read + 1), Delivered(number, Message(s.sender, out)))
  }

  function PutStep(r: Ring): Ring
    requires RingShaped(r) && r.sender.Writing?
  {
    var j, m, k := (r.write - 1) % SLOTS, r.sender.m, r.sender.words;
    r.(slots := r.slots[j := PutWord(r.slots[j], r.key, r.write - 1, m, k)],
       sender := if k + 1 == Words(m) then Resting else Writing(m, k + 1))
  }

  function Apply(r: Ring, step: Step): Ring
    requires RingShaped(r) && Enabled(r, step)
  {
    match step
    case Claim(m) => r.(write := r.write + 1, sent := r.sent + [m], sender := Writing(m, 0))
    case Put => PutStep(r)
    case Begin(room) => if r.read < r.write then r.(receiver := AtLen(room)) else Answer(r, Failed(-EAGAIN))
    case Look => LookStep(r)
  }

  lemma ApplyShaped(r: Ring, step: Step)
    requires RingShaped(r) && Enabled(r, step)
    ensures RingShaped(Apply(r, step))
  {
    hide Receipt, PutWord;
    if step.Put? {
      var j := (r.write - 1) % SLOTS;
      assert r.sender.m in r.sent && r.slots[j] in r.slots;
      assert forall s | s in PutStep(r).slots ::
               s in r.slots || s == PutWord(r.slots[j], r.key, r.write - 1, r.sender.m, r.sender.words);
    } else if step.Look? {
      assert Here(r) in r.slots;
    }
  }

  // ---------------------------------------------------------------- what the slots hold, in every run

  ghost predicate NumberHeld(r: Ring, n: nat)
    requires RingShaped(r) && n < r.write
  {
    assert r.slots[n % SLOTS] in r.slots && r.sent[n] in r.sent;
    Holds(r.slots[n % SLOTS], r.key, n, r.sent[n])
  }

  ghost predicate InProgress(r: Ring)
    requires RingShaped(r) && r.sender.Writing?
  {
    assert r.slots[(r.write - 1) % SLOTS] in r.slots && r.sent[r.write - 1] in r.sent;
    HasWords(r.slots[(r.write - 1) % SLOTS], r.key, r.write - 1, r.sender.m, r.sender.words)
  }

  /** Every written message whose slot no later one has begun to overwrite is there, whole. */
  ghost predicate SlotsOk(r: Ring)
  {
    && RingShaped(r)
    && (forall n: nat | n < Filled(r) && Begun(r) <= n + SLOTS :: NumberHeld(r, n))
    && (r.sender.Writing? ==> InProgress(r))
  }

  lemma FreshOk(key: Bytes)
    ensures SlotsOk(Fresh(key))
  {
  }

  lemma ClaimOk(r: Ring, m: Message)
    requires SlotsOk(r) && Enabled(r, Claim(m))
    ensures SlotsOk(Apply(r, Claim(m)))
  {
    hide Receipt, Holds;
    ApplyShaped(r, Claim(m));
    var t := Apply(r, Claim(m));
    forall n: nat | n < Filled(t) && Begun(t) <= n + SLOTS
      ensures NumberHeld(t, n)
    {
      assert NumberHeld(r, n);
    }
  }

  lemma PlacesApart(n: nat, w: nat)
    requires n < w < n + SLOTS
    ensures n % SLOTS != w % SLOTS
  {
  }

  lemma PutOk(r: Ring)
    requires SlotsOk(r) && Enabled(r, Put)
    ensures SlotsOk(Apply(r, Put))
  {
    hide Receipt, HasWords, PutWord;
    ApplyShaped(r, Put);
    var t, w, j := Apply(r, Put), r.write - 1, (r.write - 1) % SLOTS;
    assert r.slots[j] in r.slots && r.sender.m in r.sent && InProgress(r);
    PutNext(r.slots[j], r.key, w, r.sender.m, r.sender.words);
    forall n: nat | n < Filled(t) && Begun(t) <= n + SLOTS
      ensures NumberHeld(t, n)
    {
      if n < w {
        PlacesApart(n, w);
        assert NumberHeld(r, n);
      }
    }
  }

  /** The receiver writes nothing. */
  lemma ReceiverOk(r: Ring, step: Step)
    requires SlotsOk(r) && Enabled(r, step) && (step.Begin? || step.Look?)
    ensures SlotsOk(Apply(r, step))
    ensures var t := Apply(r, step);
            t.slots == r.slots && t.sender == r.sender && t.sent == r.sent && t.write == r.write
  {
    hide Receipt, Holds, HasWords;
    ApplyShaped(r, step);
    var t := Apply(r, step);
    forall n: nat | n < Filled(t) && Begun(t) <= n + SLOTS
      ensures NumberHeld(t, n)
    {
      assert NumberHeld(r, n);
    }
  }

  lemma StepOk(r: Ring, step: Step)
    requires SlotsOk(r) && Enabled(r, step)
    ensures SlotsOk(Apply(r, step))
  {
    hide SlotsOk, Apply;
    match step
    case Claim(m) => ClaimOk(r, m);
    case Put => PutOk(r);
    case Begin(room) => ReceiverOk(r, step);
    case Look => ReceiverOk(r, step);
  }

  // ---------------------------------------------------------------- runs

  ghost predicate IsRun(r: Ring, steps: seq<Step>)
    decreases |steps|
  {
    steps != [] ==> RingShaped(r) && Enabled(r, steps[0]) && IsRun(Apply(r, steps[0]), steps[1..])
  }

  ghost function Final(r: Ring, steps: seq<Step>): Ring
    requires IsRun(r, steps)
    decreases |steps|
  {
    if steps == [] then r else Final(Apply(r, steps[0]), steps[1..])
  }

  lemma {:induction false} RunOk(r: Ring, steps: seq<Step>)
    requires SlotsOk(r) && IsRun(r, steps)
    ensures SlotsOk(Final(r, steps))
    decreases |steps|
  {
    hide Apply, SlotsOk;
    if steps != [] {
      StepOk(r, steps[0]);
      RunOk(Apply(r, steps[0]), steps[1..]);
    }
  }

  // ---------------------------------------------------------------- first in, first out

  /** The sender is never more than `bound` messages ahead, and a receive begins only when its message is written. */
  predicate Timely(r: Ring, step: Step, bound: nat)
  {
    match step
    case Claim(m) => r.write < r.read + bound
    case Begin(room) => r.read == r.write || r.read < Filled(r)
    case _ => true
  }

  ghost predicate TimelyRun(r: Ring, steps: seq<Step>, bound: nat)
    requires IsRun(r, steps)
    decreases |steps|
  {
    steps != [] ==> Timely(r, steps[0], bound) && TimelyRun(Apply(r, steps[0]), steps[1..], bound)
  }

  /** The messages handed to callers. */
  function Got(replies: seq<Reply>): seq<Message>
  {
    if replies == [] then []
    else
      var last := replies[|replies| - 1];
      Got(replies[..|replies| - 1]) + (if last.Delivered? then [last.message] else [])
  }

  lemma GotMore(replies: seq<Reply>, reply: Reply)
    ensures Got(replies + [reply]) == Got(replies) + (if reply.Delivered? then [reply.message] else [])
  {
    assert (replies + [reply])[..|replies|] == replies;
  }

  /** What the receiver has read so far belongs to the message of its turn. */
  predicate OnTrack(r: Ring, m: Message)
  {
    match r.receiver
    case Idle => true
    case AtLen(_) => true
    case AtNumber(len) => len == |m.data|
    case AtSender(len, number) => len == |m.data| && number == r.read
    case Gathering(len, number, sender, data) =>
      len == |m.data| && number == r.read && sender == m.sender && data <= m.data
    case Comparing(number, sender, data, mac) =>
      number == r.read && sender == m.sender && data == m.data && mac <= Receipt(r.key, r.read, m.sender, m.data)
    case Copying(len, number, out) => len == |m.data| && number == r.read && out <= m.data
    case AtCaller(number, out) => number == r.read && out == m.data
  }

  ghost predicate InOrder(r: Ring)
  {
    && r.read <= |r.sent| && Got(r.replies) == r.sent[..r.read] && Failed(-EBADMSG) !in r.replies
  }

  ghost predicate OrderOk(r: Ring)
  {
    && SlotsOk(r) && r.write <= r.read + SLOTS && InOrder(r)
    && (r.receiver != Idle ==> r.read < Filled(r) && OnTrack(r, r.sent[r.read]))
  }

  lemma HereHolds(r: Ring)
    requires OrderOk(r) && r.read < Filled(r)
    ensures var s, m := Here(r), r.sent[r.read];
            && Fits(m) && s.number == r.read && s.sender == m.sender && s.len == |m.data|
            && s.data[..|m.data|] == m.data && s.mac == Receipt(r.key, r.read, m.sender, m.data)
  {
    hide Receipt, Holds, HasWords;
    assert NumberHeld(r, r.read);
    assert r.sent[r.read] in r.sent;
    HoldsParts(Here(r), r.key, r.read, r.sent[r.read]);
  }

  lemma PrefixGrows(s: Bytes, whole: Bytes, t: Bytes)
    requires s <= whole && |s| < |whole| <= |t| && t[..|whole|] == whole
    ensures s + [t[|s|]] <= whole
  {
    assert t[|s|] == t[..|whole|][|s|];
  }

  lemma LookInOrder(r: Ring)
    requires OrderOk(r) && !r.receiver.Idle?
    ensures OrderOk(Apply(r, Look))
  {
    hide Receipt, NumberHeld, InProgress, Got;
    ReceiverOk(r, Look);
    HereHolds(r);
    var t, s, m := Apply(r, Look), Here(r), r.sent[r.read];
    match r.receiver
    case Gathering(len, number, sender, data) =>
      if |data| < len {
        PrefixGrows(data, m.data, s.data);
      }
    case Comparing(number, sender, data, mac) =>
      if |mac| < 32 {
        assert s.mac[..32] == s.mac;
        PrefixGrows(mac, s.mac, s.mac);
      }
    case Copying(len, number, out) =>
      if |out| < len {
        PrefixGrows(out, m.data, s.data);
      }
    case AtCaller(number, out) =>
      GotMore(r.replies, Delivered(number, m));
      assert r.sent[..r.read + 1] == r.sent[..r.read] + [m];
    case AtLen(room) =>
      GotMore(r.replies, Failed(-ERANGE));
    case _ =>
  }

  lemma StepInOrder(r: Ring, step: Step)
    requires OrderOk(r) && Enabled(r, step) && Timely(r, step, SLOTS)
    ensures OrderOk(Apply(r, step))
  {
    hide Receipt, NumberHeld, InProgress, Got, OnTrack, PutWord;
    StepOk(r, step);
    match step
    case Claim(m) => assert (r.sent + [m])[..r.read] == r.sent[..r.read];
                     TrackSame(r, Apply(r, step));
    case Put => TrackSame(r, Apply(r, step));
    case Begin(room) =>
      GotMore(r.replies, Failed(-EAGAIN));
      BeginTrack(r, room);
    case Look => LookInOrder(r);
  }

  lemma TrackSame(r: Ring, t: Ring)
    requires t.receiver == r.receiver && t.read == r.read && t.key == r.key
    ensures forall m :: OnTrack(t, m) == OnTrack(r, m)
  {
    hide Receipt;
  }

  lemma BeginTrack(r: Ring, room: nat)
    ensures forall m :: OnTrack(r.(receiver := AtLen(room)), m)
  {
    hide Receipt;
  }

  lemma {:induction false} TimelyRunOk(r: Ring, steps: seq<Step>)
    requires OrderOk(r) && IsRun(r, steps) && TimelyRun(r, steps, SLOTS)
    ensures OrderOk(Final(r, steps))
    decreases |steps|
  {
    hide Apply, OrderOk, Timely;
    if steps != [] {
      StepInOrder(r, steps[0]);
      TimelyRunOk(Apply(r, steps[0]), steps[1..]);
    }
  }

  /** In every interleaving in which the sender is never more than 64 messages ahead and receives begin on written
      messages, all messages arrive once, in order and unaltered, and no receipt check fails. */
  lemma FifoTheorem(key: Bytes, steps: seq<Step>)
    requires IsRun(Fresh(key), steps) && TimelyRun(Fresh(key), steps, SLOTS)
    ensures InOrder(Final(Fresh(key), steps))
  {
    FreshOk(key);
    TimelyRunOk(Fresh(key), steps);
  }
}
