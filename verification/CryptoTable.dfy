/** The channel table of cc_proc.c over whole runs: creating, sending, receiving and closing by file descriptor. */
module CryptoTable {
  import opened ByteSeq
  import opened Aes
  import opened Gcm
  import opened CryptoIpc

  const CHANNELS: nat := 128
  const FIRST_FD: int := 100
  const LAST_FD: int := 0x7FFFFF00

  datatype Slot = Slot(active: bool, fdA: int, fdB: int, key: Key, ab: Ring, ba: Ring)

  datatype Table = Table(slots: seq<Slot>, next: int)

  predicate Owns(s: Slot, fd: int) { s.active && (s.fdA == fd || s.fdB == fd) }

  /** The first active slot with this descriptor, or the number of slots. */
  function Find(slots: seq<Slot>, fd: int): (i: nat)
    ensures i <= |slots| && (i < |slots| ==> Owns(slots[i], fd)) && forall j | 0 <= j < i :: !Owns(slots[j], fd)
  {
    if slots == [] || Owns(slots[0], fd) then 0
    else
      var i := Find(slots[1..], fd);
      assert forall j | 0 < j <= i :: slots[j] == slots[1..][j - 1];
      i + 1
  }

  function FirstFree(slots: seq<Slot>): (i: nat)
    ensures i <= |slots| && (i < |slots| ==> !slots[i].active) && forall j | 0 <= j < i :: slots[j].active
  {
    if slots == [] || !slots[0].active then 0
    else
      var i := FirstFree(slots[1..]);
      assert forall j | 0 < j <= i :: slots[j] == slots[1..][j - 1];
      i + 1
  }

  /** The next descriptor, recycled past the limit. */
  function NextFd(next: int): int { if next > LAST_FD then FIRST_FD else next }

  datatype Op =
    | Create(key: Key, memory: bool)
    | Send(fd: int, nonce: Nonce, message: Bytes)
    | Recv(fd: int, room: nat)
    | Close(fd: int)

  datatype Outcome = Outcome(table: Table, code: int, text: Bytes)

  /** `cc_ipc_channel_create`; `memory` says whether both rings could be allocated. */
  function CreateStep(t: Table, key: Key, memory: bool): Outcome
  {
    var i := FirstFree(t.slots);
    if i == |t.slots| || !memory then Outcome(t, -ENOMEM, [])
    else
      var fd := NextFd(t.next);
      Outcome(Table(t.slots[i := Slot(true, fd, fd + 1, key, EmptyRing(), EmptyRing())], fd + 2), fd, [])
  }

  predicate Sized(t: Table)
  {
    |t.slots| == CHANNELS && forall s <- t.slots :: |s.ab.bytes| == RING && |s.ba.bytes| == RING
  }

  /** `cc_ipc_send`. */
  function SendStep(t: Table, fd: int, nonce: Nonce, message: Bytes): Outcome
    requires Sized(t)
  {
    if |message| == 0 then Outcome(t, -EINVAL, [])
    else if |message| > HALF then Outcome(t, -EMSGSIZE, [])
    else
      var i := Find(t.slots, fd);
      if i == |t.slots| then Outcome(t, -EBADF, [])
      else
        var s := t.slots[i];
        if s.fdA == fd then
          var r := SendOn(s.ab, s.key, nonce, message);
          Outcome(t.(slots := t.slots[i := s.(ab := r.ring)]), r.code, [])
        else
          var r := SendOn(s.ba, s.key, nonce, message);
          Outcome(t.(slots := t.slots[i := s.(ba := r.ring)]), r.code, [])
  }

  /** `cc_ipc_recv`. */
  function RecvStep(t: Table, fd: int, room: nat): Outcome
    requires Sized(t)
  {
    if room == 0 then Outcome(t, -EINVAL, [])
    else
      var i := Find(t.slots, fd);
      if i == |t.slots| then Outcome(t, -EBADF, [])
      else
        var s := t.slots[i];
        if s.fdB == fd then
          var r := RecvOn(s.ab, s.key, room);
          Outcome(t.(slots := t.slots[i := s.(ab := r.ring)]), r.code, r.text)
        else
          var r := RecvOn(s.ba, s.key, room);
          Outcome(t.(slots := t.slots[i := s.(ba := r.ring)]), r.code, r.text)
  }

  /** `cc_ipc_close`: the key is wiped and the slot freed. */
  function CloseStep(t: Table, fd: int): Outcome
  {
    var i := Find(t.slots, fd);
    if i == |t.slots| then Outcome(t, 0, [])
    else Outcome(t.(slots := t.slots[i := t.slots[i].(active := false, key := Repeat(0, 32))]), 0, [])
  }

  function Step(t: Table, op: Op): Outcome
    requires Sized(t)
  {
    match op
    case Create(key, memory) => CreateStep(t, key, memory)
    case Send(fd, nonce, message) => SendStep(t, fd, nonce, message)
    case Recv(fd, room) => RecvStep(t, fd, room)
    case Close(fd) => CloseStep(t, fd)
  }

  // ---------------------------------------------------------------- what callers saw

  /** One direction as its two ends saw it: messages accepted, messages handed out, and the frames in between. */
  datatype Traffic = Traffic(accepted: seq<Bytes>, handed: seq<Bytes>, waiting: seq<Framed>)

  const SILENT: Traffic := Traffic([], [], [])

  function Messages(frames: seq<Framed>): seq<Bytes>
  {
    if frames == [] then [] else Messages(frames[..|frames| - 1]) + [frames[|frames| - 1].message]
  }

  lemma {:induction false} MessagesFirst(frames: seq<Framed>)
    requires frames != []
    ensures Messages(frames) == [frames[0].message] + Messages(frames[1..])
  {
    var n := |frames| - 1;
    if n == 0 {
      assert frames[..0] == [] && frames[1..] == [];
    } else {
      MessagesFirst(frames[..n]);
      assert frames[1..][..n - 1] == frames[..n][1..];
      assert frames[1..][n - 1] == frames[n];
    }
  }

  lemma MessagesLast(frames: seq<Framed>, f: Framed)
    ensures Messages(frames + [f]) == Messages(frames) + [f.message]
  {
    assert (frames + [f])[..|frames|] == frames;
  }

  /** First in, first out: what was handed out, followed by what waits in the ring, is what was accepted. */
  ghost predicate Fifo(r: Ring, key: Key, h: Traffic)
  {
    Holds(r, h.waiting) && AllCarry(key, h.waiting) && h.accepted == h.handed + Messages(h.waiting)
  }

  function AfterSend(h: Traffic, code: int, key: Key, nonce: Nonce, message: Bytes): Traffic
  {
    if code < 0 then h
    else Traffic(h.accepted + [message], h.handed, h.waiting + [Framed(Frame(key, nonce, message), message)])
  }

  function AfterRecv(h: Traffic, code: int, text: Bytes): Traffic
  {
    if code < 0 || h.waiting == [] then h else Traffic(h.accepted, h.handed + [text], h.waiting[1..])
  }

  lemma SendFifo(r: Ring, key: Key, h: Traffic, nonce: Nonce, message: Bytes)
    requires Fifo(r, key, h) && 0 < |message| <= HALF
    ensures var s := SendOn(r, key, nonce, message); Fifo(s.ring, key, AfterSend(h, s.code, key, nonce, message))
  {
    hide SendOn, Holds, AllCarry, Frame, Messages;
    SendKeeps(r, key, h.waiting, nonce, message);
    MessagesLast(h.waiting, Framed(Frame(key, nonce, message), message));
  }

  lemma RecvFifo(r: Ring, key: Key, h: Traffic, room: nat)
    requires Fifo(r, key, h)
    ensures var s := RecvOn(r, key, room); Fifo(s.ring, key, AfterRecv(h, s.code, s.text))
    ensures RecvOn(r, key, room).code == -EAGAIN <==> h.handed == h.accepted
  {
    hide RecvOn, Holds, Carries, Messages;
    RecvKeeps(r, key, h.waiting, room);
    if h.waiting == [] {
      NoMessages();
    } else {
      MessagesFirst(h.waiting);
    }
  }

  lemma NoMessages()
    ensures Messages([]) == []
  {
  }

  // ---------------------------------------------------------------- runs

  datatype World = World(table: Table, ab: seq<Traffic>, ba: seq<Traffic>)

  ghost predicate SlotOk(w: World, i: nat)
    requires i < |w.table.slots| && i < |w.ab| && i < |w.ba|
  {
    var s := w.table.slots[i];
    s.active ==> Fifo(s.ab, s.key, w.ab[i]) && Fifo(s.ba, s.key, w.ba[i])
  }

  ghost predicate WorldOk(w: World)
  {
    && Sized(w.table) && |w.ab| == CHANNELS && |w.ba| == CHANNELS && w.table.next >= FIRST_FD
    && forall i | 0 <= i < CHANNELS :: SlotOk(w, i)
  }

  /** One call, with the traffic of the direction it used brought up to date from what the call returned. */
  function WorldStep(w: World, op: Op): World
    requires Sized(w.table) && |w.ab| == CHANNELS && |w.ba| == CHANNELS
  {
    var out := Step(w.table, op);
    match op
    case Create(key, memory) =>
      var i := FirstFree(w.table.slots);
      if out.code < 0 then w.(table := out.table)
      else World(out.table, if i < CHANNELS then w.ab[i := SILENT] else w.ab,
                 if i < CHANNELS then w.ba[i := SILENT] else w.ba)
    case Send(fd, nonce, message) =>
      var i := Find(w.table.slots, fd);
      if out.code < 0 || i == CHANNELS then w.(table := out.table)
      else if w.table.slots[i].fdA == fd then
        World(out.table, w.ab[i := AfterSend(w.ab[i], out.code, w.table.slots[i].key, nonce, message)], w.ba)
      else
        World(out.table, w.ab, w.ba[i := AfterSend(w.ba[i], out.code, w.table.slots[i].key, nonce, message)])
    case Recv(fd, room) =>
      var i := Find(w.table.slots, fd);
      if out.code < 0 || i == CHANNELS then w.(table := out.table)
      else if w.table.slots[i].fdB == fd then
        World(out.table, w.ab[i := AfterRecv(w.ab[i], out.code, out.text)], w.ba)
      else
        World(out.table, w.ab, w.ba[i := AfterRecv(w.ba[i], out.code, out.text)])
    case Close(fd) => w.(table := out.table)
  }

  lemma FreshFifo(key: Key)
    ensures Fifo(EmptyRing(), key, SILENT)
  {
    assert EmptyRing().bytes[0..0] == [];
  }

  /** A step that touches one slot and its traffic keeps the rest. */
  lemma OneSlot(w: World, v: World, i: nat)
    requires WorldOk(w) && i < CHANNELS && |v.table.slots| == CHANNELS && v.table.next >= FIRST_FD
    requires v.table.slots == w.table.slots[i := v.table.slots[i]]
    requires |v.ab| == CHANNELS && |v.ba| == CHANNELS
    requires v.ab == w.ab[i := v.ab[i]] && v.ba == w.ba[i := v.ba[i]]
    requires |v.table.slots[i].ab.bytes| == RING && |v.table.slots[i].ba.bytes| == RING && SlotOk(v, i)
    ensures WorldOk(v)
  {
    hide Fifo;
    forall j | 0 <= j < CHANNELS
      ensures SlotOk(v, j)
    {
      assert SlotOk(w, j);
    }
  }

  lemma CreateOk(w: World, key: Key, memory: bool)
    requires WorldOk(w)
    ensures WorldOk(WorldStep(w, Create(key, memory)))
  {
    hide Fifo;
    FreshFifo(key);
    var i := FirstFree(w.table.slots);
    if i < CHANNELS && memory {
      OneSlot(w, WorldStep(w, Create(key, memory)), i);
    }
  }

  lemma SendOk(w: World, fd: int, nonce: Nonce, message: Bytes)
    requires WorldOk(w)
    ensures WorldOk(WorldStep(w, Send(fd, nonce, message)))
  {
    hide Fifo, SendOn, AfterSend;
    var i := Find(w.table.slots, fd);
    if 0 < |message| <= HALF && i < CHANNELS {
      assert SlotOk(w, i);
      var s := w.table.slots[i];
      SendFifo(s.ab, s.key, w.ab[i], nonce, message);
      SendFifo(s.ba, s.key, w.ba[i], nonce, message);
      SendShape(s.ab, s.key, w.ab[i], nonce, message);
      SendShape(s.ba, s.key, w.ba[i], nonce, message);
      OneSlot(w, WorldStep(w, Send(fd, nonce, message)), i);
    }
  }

  /** A refused call leaves the ring as it was. */
  lemma SendShape(r: Ring, key: Key, h: Traffic, nonce: Nonce, message: Bytes)
    requires |r.bytes| == RING
    ensures var s := SendOn(r, key, nonce, message);
            |s.ring.bytes| == RING && (s.code < 0 ==> s.ring == r && AfterSend(h, s.code, key, nonce, message) == h)
  {
    hide Frame;
  }

  lemma RecvOk(w: World, fd: int, room: nat)
    requires WorldOk(w)
    ensures WorldOk(WorldStep(w, Recv(fd, room)))
  {
    hide Fifo, RecvOn, AfterRecv;
    var i := Find(w.table.slots, fd);
    if room > 0 && i < CHANNELS {
      assert SlotOk(w, i);
      var s := w.table.slots[i];
      RecvFifo(s.ab, s.key, w.ab[i], room);
      RecvFifo(s.ba, s.key, w.ba[i], room);
      RecvShape(s.ab, s.key, w.ab[i], room);
      RecvShape(s.ba, s.key, w.ba[i], room);
      OneSlot(w, WorldStep(w, Recv(fd, room)), i);
    }
  }

  lemma RecvShape(r: Ring, key: Key, h: Traffic, room: nat)
    requires |r.bytes| == RING
    ensures var s := RecvOn(r, key, room);
            |s.ring.bytes| == RING && (s.code < 0 ==> AfterRecv(h, s.code, s.text) == h)
  {
    hide Open, Le32;
  }

  lemma CloseOk(w: World, fd: int)
    requires WorldOk(w)
    ensures WorldOk(WorldStep(w, Close(fd)))
  {
    hide Fifo;
    var i := Find(w.table.slots, fd);
    if i < CHANNELS {
      OneSlot(w, WorldStep(w, Close(fd)), i);
    }
  }

  lemma StepOk(w: World, op: Op)
    requires WorldOk(w)
    ensures WorldOk(WorldStep(w, op))
  {
    hide WorldStep, SlotOk;
    match op
    case Create(key, memory) => CreateOk(w, key, memory);
    case Send(fd, nonce, message) => SendOk(w, fd, nonce, message);
    case Recv(fd, room) => RecvOk(w, fd, room);
    case Close(fd) => CloseOk(w, fd);
  }

  function Initial(): World
  {
    World(Table(Idle(CHANNELS), FIRST_FD), Silent(CHANNELS), Silent(CHANNELS))
  }

  function Idle(n: nat): (r: seq<Slot>)
    ensures |r| == n && forall s <- r :: !s.active && |s.ab.bytes| == RING && |s.ba.bytes| == RING
  {
    if n == 0 then [] else Idle(n - 1) + [Slot(false, 0, 0, Repeat(0, 32), EmptyRing(), EmptyRing())]
  }

  function Silent(n: nat): (r: seq<Traffic>)
    ensures |r| == n
  {
    if n == 0 then [] else Silent(n - 1) + [SILENT]
  }

  ghost function Run(ops: seq<Op>): (w: World)
    ensures WorldOk(w)
  {
    if ops == [] then Initial()
    else
      var w := Run(ops[..|ops| - 1]);
      StepOk(w, ops[|ops| - 1]);
      WorldStep(w, ops[|ops| - 1])
  }

  /** In every run, every open direction has handed out exactly the front of what it accepted, in order and
      unaltered. */
  lemma ChannelTheorem(ops: seq<Op>, i: nat)
    requires i < CHANNELS && Run(ops).table.slots[i].active
    ensures var w := Run(ops); w.ab[i].handed <= w.ab[i].accepted && w.ba[i].handed <= w.ba[i].accepted
  {
    hide Run, Holds, AllCarry;
    assert SlotOk(Run(ops), i);
  }

  // ---------------------------------------------------------------- descriptors

  predicate Apart(s: Slot, t: Slot)
  {
    s.active && t.active ==> s.fdA != t.fdA && s.fdA != t.fdB && s.fdB != t.fdA && s.fdB != t.fdB
  }

  ghost predicate Distinct(t: Table)
  {
    && (forall s <- t.slots :: s.active ==> s.fdA != s.fdB)
    && forall i, j | 0 <= i < j < |t.slots| :: Apart(t.slots[i], t.slots[j])
  }

  predicate InUse(t: Table, fd: int) { exists s :: s in t.slots && Owns(s, fd) }

  /** With distinct descriptors, each one leads to its own channel. */
  lemma FindOwn(t: Table, i: nat, fd: int)
    requires Distinct(t) && i < |t.slots| && Owns(t.slots[i], fd)
    ensures Find(t.slots, fd) == i
  {
    var k := Find(t.slots, fd);
    assert k < i ==> Apart(t.slots[k], t.slots[i]);
  }

  /** Creating a channel keeps descriptors distinct exactly when neither of the two it hands out is in use. */
  lemma CreateDistinctIff(t: Table, key: Key)
    requires Distinct(t) && FirstFree(t.slots) < |t.slots|
    ensures var fd := NextFd(t.next);
            Distinct(CreateStep(t, key, true).table) <==> !InUse(t, fd) && !InUse(t, fd + 1)
  {
    var fd, i := NextFd(t.next), FirstFree(t.slots);
    var u := CreateStep(t, key, true).table;
    if !InUse(t, fd) && !InUse(t, fd + 1) {
      forall a, b | 0 <= a < b < |u.slots|
        ensures Apart(u.slots[a], u.slots[b])
      {
        assert Apart(t.slots[a], t.slots[b]);
        assert t.slots[a] in t.slots && t.slots[b] in t.slots;
      }
    }
    if Distinct(u) {
      forall j | 0 <= j < |t.slots| && j != i
        ensures !Owns(t.slots[j], fd) && !Owns(t.slots[j], fd + 1)
      {
        NotShared(u, i, j);
      }
    }
  }

  lemma NotShared(t: Table, i: nat, j: nat)
    requires Distinct(t) && i < |t.slots| && j < |t.slots| && i != j
    ensures Apart(t.slots[i], t.slots[j]) && Apart(t.slots[j], t.slots[i])
  {
    if i < j {
      assert Apart(t.slots[i], t.slots[j]);
    } else {
      assert Apart(t.slots[j], t.slots[i]);
    }
  }

  /** Every descriptor in use was handed out before the counter's value. */
  ghost predicate Below(t: Table)
  {
    forall s <- t.slots :: s.active ==> s.fdA < s.fdB < t.next
  }

  lemma StepDistinct(w: World, op: Op)
    requires WorldOk(w) && Distinct(w.table) && Below(w.table) && w.table.next <= LAST_FD
    ensures var t := WorldStep(w, op).table; Distinct(t) && Below(t) && t.next <= w.table.next + 2
  {
    hide SlotOk, SendStep, RecvStep, AfterSend, AfterRecv, Apart;
    var t, u := w.table, WorldStep(w, op).table;
    match op
    case Create(key, memory) =>
      if FirstFree(t.slots) < CHANNELS && memory {
        CreateDistinctIff(t, key);
      }
    case Send(fd, nonce, message) =>
      SendFewer(t, fd, nonce, message);
      SameDescriptors(t, u);
    case Recv(fd, room) =>
      RecvFewer(t, fd, room);
      SameDescriptors(t, u);
    case Close(fd) =>
      SameDescriptors(t, u);
  }

  ghost predicate AllFewer(t: Table, u: Table)
  {
    |u.slots| == |t.slots| && u.next == t.next && forall i | 0 <= i < |t.slots| :: Fewer(t.slots[i], u.slots[i])
  }

  lemma SendFewer(t: Table, fd: int, nonce: Nonce, message: Bytes)
    requires Sized(t)
    ensures AllFewer(t, SendStep(t, fd, nonce, message).table)
  {
    hide SendOn;
  }

  lemma RecvFewer(t: Table, fd: int, room: nat)
    requires Sized(t)
    ensures AllFewer(t, RecvStep(t, fd, room).table)
  {
    hide RecvOn;
  }

  /** Only creating a channel activates descriptors. */
  lemma SameDescriptors(t: Table, u: Table)
    requires Distinct(t) && Below(t) && AllFewer(t, u)
    ensures Distinct(u) && Below(u)
  {
    forall i, j | 0 <= i < j < |u.slots|
      ensures Apart(u.slots[i], u.slots[j])
    {
      assert Fewer(t.slots[i], u.slots[i]) && Fewer(t.slots[j], u.slots[j]) && Apart(t.slots[i], t.slots[j]);
    }
    forall i | 0 <= i < |u.slots|
      ensures u.slots[i].active ==> u.slots[i].fdA < u.slots[i].fdB < u.next
    {
      assert Fewer(t.slots[i], u.slots[i]);
    }
  }

  predicate Fewer(s: Slot, u: Slot) { u.active ==> s.active && u.fdA == s.fdA && u.fdB == s.fdB }

  /** Before the counter can reach its limit, no two open descriptors are equal, so each leads to its own channel. */
  lemma {:induction false} DescriptorTheorem(ops: seq<Op>)
    requires FIRST_FD + 2 * |ops| <= LAST_FD + 2
    ensures Distinct(Run(ops).table) && Below(Run(ops).table) && Run(ops).table.next <= FIRST_FD + 2 * |ops|
  {
    hide WorldOk, WorldStep;
    if ops != [] {
      DescriptorTheorem(ops[..|ops| - 1]);
      StepDistinct(Run(ops[..|ops| - 1]), ops[|ops| - 1]);
    }
  }

  // ---------------------------------------------------------------- recycled descriptors

  lemma RunStep(ops: seq<Op>, op: Op)
    ensures Run(ops + [op]) == WorldStep(Run(ops), op)
  {
    hide WorldOk, WorldStep;
    assert (ops + [op])[..|ops|] == ops;
  }

  /** Slot 0 holds the first channel ever created, slot 1 is free, and the counter stands at `next`. */
  predicate Waiting(t: Table, next: int)
  {
    && |t.slots| == CHANNELS && t.slots[0].active
    && t.slots[0].fdA == FIRST_FD && t.slots[0].fdB == FIRST_FD + 1
    && !t.slots[1].active && t.next == next
  }

  lemma FirstIsZero(slots: seq<Slot>, fd: int)
    requires slots != []
    ensures !slots[0].active ==> FirstFree(slots) == 0
    ensures Owns(slots[0], fd) ==> Find(slots, fd) == 0
  {
  }

  lemma FirstIsOne(slots: seq<Slot>, fd: int)
    requires |slots| > 1
    ensures slots[0].active && !slots[1].active ==> FirstFree(slots) == 1
    ensures !Owns(slots[0], fd) && Owns(slots[1], fd) ==> Find(slots, fd) == 1
  {
  }

  lemma FirstChannel(key: Key)
    ensures Waiting(Run([Create(key, true)]).table, FIRST_FD + 2)
  {
    RunStep([], Create(key, true));
    var t := Initial().table;
    assert t.slots[0] in t.slots && t.slots[1] in t.slots;
    FirstIsZero(t.slots, FIRST_FD);
    assert [] + [Create(key, true)] == [Create(key, true)];
  }

  /** Creating a second channel and closing it moves the counter by two. */
  lemma SecondChannel(ops: seq<Op>, key: Key, next: int)
    requires Waiting(Run(ops).table, next) && FIRST_FD + 1 < next <= LAST_FD
    ensures Waiting(Run(ops + [Create(key, true)] + [Close(next)]).table, next + 2)
  {
    hide Run, WorldOk;
    RunStep(ops, Create(key, true));
    RunStep(ops + [Create(key, true)], Close(next));
    var t := Run(ops).table;
    FirstIsOne(t.slots, next);
    FirstIsOne(CreateStep(t, key, true).table.slots, next);
  }

  lemma {:induction false} ManyChannels(key: Key, n: nat) returns (ops: seq<Op>)
    requires FIRST_FD + 2 * n <= LAST_FD
    ensures Waiting(Run(ops).table, FIRST_FD + 2 + 2 * n) && |ops| == 1 + 2 * n
  {
    hide Run, Waiting;
    if n == 0 {
      ops := [Create(key, true)];
      FirstChannel(key);
    } else {
      var first := ManyChannels(key, n - 1);
      SecondChannel(first, key, FIRST_FD + 2 * n);
      ops := first + [Create(key, true)] + [Close(FIRST_FD + 2 * n)];
    }
  }

  /** Past the limit the counter starts over without looking: with one channel open since the start, a run comes to
      hand out its descriptors a second time, and calls on them reach the old channel. */
  lemma RecycledCollide(key: Key) returns (ops: seq<Op>)
    ensures var t := Run(ops).table;
            && !Distinct(t) && Owns(t.slots[0], FIRST_FD) && Owns(t.slots[1], FIRST_FD)
            && Find(t.slots, FIRST_FD) == 0
  {
    hide Run, WorldOk;
    var n := (LAST_FD - FIRST_FD) / 2;
    var first := ManyChannels(key, n);
    RunStep(first, Create(key, true));
    ops := first + [Create(key, true)];
    var t := Run(first).table;
    FirstIsOne(t.slots, FIRST_FD);
    var u := Run(ops).table;
    FirstIsZero(u.slots, FIRST_FD);
    assert !Apart(u.slots[0], u.slots[1]);
  }
}
