/** Runs of the slot ring of ipc/ipc.c: what a receive returns when nothing interrupts it, and why both
    conditions of the first-in-first-out theorem are needed. */
module IpcRuns {
  import opened ByteSeq
  import opened IpcRing

  // ---------------------------------------------------------------- composing runs

  lemma {:induction false} RunConcat(r: Ring, xs: seq<Step>, ys: seq<Step>)
    requires IsRun(r, xs) && IsRun(Final(r, xs), ys)
    ensures IsRun(r, xs + ys) && Final(r, xs + ys) == Final(Final(r, xs), ys)
    decreases |xs|
  {
    hide Apply, RingShaped, Enabled;
    if xs == [] {
      assert xs + ys == ys;
    } else {
      RunConcat(Apply(r, xs[0]), xs[1..], ys);
      assert (xs + ys)[0] == xs[0] && (xs + ys)[1..] == xs[1..] + ys;
    }
  }

  lemma {:induction false} TimelyConcat(r: Ring, xs: seq<Step>, ys: seq<Step>, bound: nat)
    requires IsRun(r, xs) && IsRun(Final(r, xs), ys) && IsRun(r, xs + ys)
    requires TimelyRun(r, xs, bound) && TimelyRun(Final(r, xs), ys, bound)
    ensures TimelyRun(r, xs + ys, bound)
    decreases |xs|
  {
    hide Apply, RingShaped, Enabled, Timely;
    if xs == [] {
      assert xs + ys == ys;
    } else {
      RunConcat(Apply(r, xs[0]), xs[1..], ys);
      assert (xs + ys)[0] == xs[0] && (xs + ys)[1..] == xs[1..] + ys;
      TimelyConcat(Apply(r, xs[0]), xs[1..], ys, bound);
    }
  }

  lemma RunOne(r: Ring, step: Step)
    requires RingShaped(r) && Enabled(r, step)
    ensures IsRun(r, [step]) && Final(r, [step]) == Apply(r, step)
  {
    hide Apply, RingShaped, Enabled;
    assert [step][1..] == [];
    assert IsRun(Apply(r, step), []);
  }

  /** A run within the bound that leads from one state to another. */
  ghost predicate Leads(r: Ring, steps: seq<Step>, t: Ring, bound: nat)
  {
    IsRun(r, steps) && TimelyRun(r, steps, bound) && Final(r, steps) == t
  }

  lemma LeadsThen(r: Ring, xs: seq<Step>, s: Ring, ys: seq<Step>, t: Ring, bound: nat)
    requires Leads(r, xs, s, bound) && Leads(s, ys, t, bound)
    ensures Leads(r, xs + ys, t, bound)
  {
    hide IsRun, Final, TimelyRun;
    RunConcat(r, xs, ys);
    TimelyConcat(r, xs, ys, bound);
  }

  lemma LeadsOne(r: Ring, step: Step, bound: nat)
    requires RingShaped(r) && Enabled(r, step) && Timely(r, step, bound)
    ensures Leads(r, [step], Apply(r, step), bound)
  {
    hide Apply, RingShaped, Enabled, Timely;
    RunOne(r, step);
    assert [step][1..] == [];
    assert TimelyRun(Apply(r, step), [], bound);
  }

  lemma LeadsNone(r: Ring, bound: nat)
    ensures Leads(r, [], r, bound)
  {
  }

  function Repeated(step: Step, n: nat): (steps: seq<Step>)
    ensures |steps| == n && forall s <- steps :: s == step
  {
    if n == 0 then [] else Repeated(step, n - 1) + [step]
  }

  // ---------------------------------------------------------------- the receiver's loops, uninterrupted

  lemma LookOne(r: Ring, bound: nat)
    requires RingShaped(r) && !r.receiver.Idle?
    ensures Leads(r, [Look], LookStep(r), bound) && RingShaped(LookStep(r))
  {
    hide LookStep, RingShaped;
    LeadsOne(r, Look, bound);
    ApplyShaped(r, Look);
  }

  lemma {:induction false} RepeatedFirst(step: Step, n: nat)
    requires n > 0
    ensures Repeated(step, n) == [step] + Repeated(step, n - 1)
  {
    if n > 1 {
      RepeatedFirst(step, n - 1);
    }
  }

  /** The payload bytes that remain, for the receipt. */
  lemma {:induction false} GatherAll(r: Ring, len: nat, number: nat, sender: nat, data: Bytes, bound: nat)
    requires RingShaped(r) && r.receiver == Gathering(len, number, sender, data) && data == Here(r).data[..|data|]
    ensures var t := r.(receiver := Gathering(len, number, sender, Here(r).data[..len]));
            Leads(r, Repeated(Look, len - |data|), t, bound) && RingShaped(t)
    decreases len - |data|
  {
    hide Receipt, Leads;
    LeadsNone(r, bound);
    if |data| < len {
      LookOne(r, bound);
      var s, more := LookStep(r), Here(r).data[..|data| + 1];
      assert more == data + [Here(r).data[|data|]];
      GatherAll(s, len, number, sender, more, bound);
      var t := r.(receiver := Gathering(len, number, sender, Here(r).data[..len]));
      LeadsThen(r, [Look], s, Repeated(Look, len - |data| - 1), t, bound);
      RepeatedFirst(Look, len - |data|);
    }
  }

  /** The receipt bytes that remain. */
  lemma {:induction false} CompareAll(r: Ring, number: nat, sender: nat, data: Bytes, mac: Bytes, bound: nat)
    requires RingShaped(r) && r.receiver == Comparing(number, sender, data, mac) && mac == Here(r).mac[..|mac|]
    ensures var t := r.(receiver := Comparing(number, sender, data, Here(r).mac));
            Leads(r, Repeated(Look, 32 - |mac|), t, bound) && RingShaped(t)
    decreases 32 - |mac|
  {
    hide Receipt, Leads;
    LeadsNone(r, bound);
    assert Here(r).mac[..32] == Here(r).mac;
    if |mac| < 32 {
      LookOne(r, bound);
      var s, more := LookStep(r), Here(r).mac[..|mac| + 1];
      assert more == mac + [Here(r).mac[|mac|]];
      CompareAll(s, number, sender, data, more, bound);
      var t := r.(receiver := Comparing(number, sender, data, Here(r).mac));
      LeadsThen(r, [Look], s, Repeated(Look, 31 - |mac|), t, bound);
      RepeatedFirst(Look, 32 - |mac|);
    }
  }

  /** The payload bytes that remain, for the caller. */
  lemma {:induction false} CopyAll(r: Ring, len: nat, number: nat, out: Bytes, bound: nat)
    requires RingShaped(r) && r.receiver == Copying(len, number, out)
    ensures var t := r.(receiver := Copying(len, number, out + Here(r).data[|out|..len]));
            Leads(r, Repeated(Look, len - |out|), t, bound) && RingShaped(t)
    decreases len - |out|
  {
    hide Receipt, Leads;
    LeadsNone(r, bound);
    var data := Here(r).data;
    if |out| < len {
      LookOne(r, bound);
      var s, more := LookStep(r), out + [data[|out|]];
      CopyAll(s, len, number, more, bound);
      assert more + data[|out| + 1..len] == out + data[|out|..len];
      var t := r.(receiver := Copying(len, number, out + data[|out|..len]));
      LeadsThen(r, [Look], s, Repeated(Look, len - |out| - 1), t, bound);
      RepeatedFirst(Look, len - |out|);
    } else {
      assert out + data[|out|..len] == out;
    }
  }

  // ---------------------------------------------------------------- an uninterrupted receive

  predicate Genuine(s: Slot, key: Bytes)
    requires Shaped(s)
  {
    s.mac == Receipt(key, s.number, s.sender, s.data[..s.len])
  }

  /** What `ipc_recv` answers about a slot that nobody writes meanwhile. */
  function AloneReply(s: Slot, key: Bytes, room: nat): Reply
    requires Shaped(s)
  {
    if s.len > room then Failed(-ERANGE)
    else if !Genuine(s, key) then Failed(-EBADMSG)
    else Delivered(s.number, Message(s.sender, s.data[..s.len]))
  }

  /** Length, number and sender. */
  lemma ReadHeader(r: Ring, room: nat, bound: nat)
    requires RingShaped(r) && r.receiver == AtLen(room) && Here(r).len <= room
    ensures var t := r.(receiver := Gathering(Here(r).len, Here(r).number, Here(r).sender, []));
            Leads(r, [Look] + [Look] + [Look], t, bound) && RingShaped(t)
  {
    hide Receipt, Leads;
    LookOne(r, bound);
    var r1 := LookStep(r);
    LookOne(r1, bound);
    var r2 := LookStep(r1);
    LookOne(r2, bound);
    var r3 := LookStep(r2);
    LeadsThen(r, [Look], r1, [Look], r2, bound);
    LeadsThen(r, [Look] + [Look], r2, [Look], r3, bound);
  }

  /** The payload, and on to the receipt. */
  lemma ReadPayload(r: Ring, number: nat, sender: nat, bound: nat)
    requires RingShaped(r) && r.receiver == Gathering(Here(r).len, number, sender, [])
    ensures var s := Here(r);
            var t := r.(receiver := Comparing(number, sender, s.data[..s.len], []));
            Leads(r, Repeated(Look, s.len) + [Look], t, bound) && RingShaped(t)
  {
    hide Receipt, Leads;
    var s := Here(r);
    assert s.data[..0] == [];
    GatherAll(r, s.len, number, sender, [], bound);
    var r1 := r.(receiver := Gathering(s.len, number, sender, s.data[..s.len]));
    LookOne(r1, bound);
    LeadsThen(r, Repeated(Look, s.len), r1, [Look], LookStep(r1), bound);
  }

  /** From the first look to the end of the receipt. */
  lemma Examine(r: Ring, room: nat, bound: nat) returns (steps: seq<Step>)
    requires RingShaped(r) && r.receiver == AtLen(room) && Here(r).len <= room
    ensures var s := Here(r);
            var t := r.(receiver := Comparing(s.number, s.sender, s.data[..s.len], s.mac));
            Leads(r, steps, t, bound) && RingShaped(t)
    ensures forall step <- steps :: step == Look
  {
    hide Receipt, Leads;
    var s := Here(r);
    ReadHeader(r, room, bound);
    var r1 := r.(receiver := Gathering(s.len, s.number, s.sender, []));
    ReadPayload(r1, s.number, s.sender, bound);
    var r2 := r.(receiver := Comparing(s.number, s.sender, s.data[..s.len], []));
    steps := [Look] + [Look] + [Look];
    LeadsThen(r, steps, r1, Repeated(Look, s.len) + [Look], r2, bound);
    steps := steps + (Repeated(Look, s.len) + [Look]);
    assert s.mac[..0] == [];
    CompareAll(r2, s.number, s.sender, s.data[..s.len], [], bound);
    LeadsThen(r, steps, r2, Repeated(Look, 32), r.(receiver := Comparing(s.number, s.sender, s.data[..s.len], s.mac)),
        bound);
    steps := steps + Repeated(Look, 32);
  }

  /** From a matching receipt to the caller. */
  lemma Deliver(r: Ring, len: nat, number: nat, out: Bytes, bound: nat) returns (steps: seq<Step>)
    requires RingShaped(r) && r.receiver == Copying(len, number, out)
    ensures var s := Here(r);
            var message := Message(s.sender, out + s.data[|out|..len]);
            Leads(r, steps, Answer(r.(read := r.read + 1), Delivered(number, message)), bound)
    ensures forall step <- steps :: step == Look
  {
    hide Receipt, Leads;
    var s := Here(r);
    CopyAll(r, len, number, out, bound);
    var all := out + s.data[|out|..len];
    var r1 := r.(receiver := Copying(len, number, all));
    steps := Repeated(Look, len - |out|);
    LookOne(r1, bound);
    var r2 := LookStep(r1);
    LeadsThen(r, steps, r1, [Look], r2, bound);
    steps := steps + [Look];
    LookOne(r2, bound);
    var r3 := LookStep(r2);
    LeadsThen(r, steps, r2, [Look], r3, bound);
    steps := steps + [Look];
  }

  lemma AloneFrom(r: Ring, room: nat, bound: nat) returns (steps: seq<Step>)
    requires RingShaped(r) && r.receiver == AtLen(room)
    ensures var reply := AloneReply(Here(r), r.key, room);
            Leads(r, steps, Answer(if reply.Delivered? then r.(read := r.read + 1) else r, reply), bound)
    ensures forall step <- steps :: step == Look
  {
    hide Receipt, Leads;
    var s := Here(r);
    if s.len > room {
      LookOne(r, bound);
      steps := [Look];
    } else {
      steps := Examine(r, room, bound);
      var r1 := r.(receiver := Comparing(s.number, s.sender, s.data[..s.len], s.mac));
      LookOne(r1, bound);
      var r2 := LookStep(r1);
      LeadsThen(r, steps, r1, [Look], r2, bound);
      steps := steps + [Look];
      if Genuine(s, r.key) {
        var rest := Deliver(r2, s.len, s.number, [], bound);
        assert [] + s.data[0..s.len] == s.data[..s.len];
        var t := Answer(r.(read := r.read + 1), AloneReply(s, r.key, room));
        LeadsThen(r, steps, r2, rest, t, bound);
        steps := steps + rest;
      }
    }
  }

  ghost function Replied(r: Ring, reply: Reply): Ring
  {
    Answer(if reply.Delivered? then r.(read := r.read + 1) else r, reply)
  }

  /** A receive that nothing interrupts ends with the answer the slot calls for, and moves on only when it delivers. */
  lemma Alone(r: Ring, room: nat) returns (steps: seq<Step>)
    requires RingShaped(r) && r.receiver.Idle? && r.read < r.write
    ensures IsRun(r, steps) && Final(r, steps) == Replied(r, AloneReply(Here(r), r.key, room))
    ensures forall step <- steps :: step == Look || step == Begin(room)
  {
    hide Receipt, IsRun, Final, TimelyRun;
    RunOne(r, Begin(room));
    var r1 := r.(receiver := AtLen(room));
    ApplyShaped(r, Begin(room));
    steps := AloneFrom(r1, room, 0);
    RunConcat(r, [Begin(room)], steps);
    steps := [Begin(room)] + steps;
  }

  lemma HeldReply(r: Ring, n: nat, room: nat)
    requires RingShaped(r) && n < r.write && n % SLOTS == r.read % SLOTS && NumberHeld(r, n)
    ensures AloneReply(Here(r), r.key, room)
            == if |r.sent[n].data| > room then Failed(-ERANGE) else Delivered(n, r.sent[n])
  {
    hide Receipt, Holds;
    assert r.sent[n] in r.sent;
    HoldsParts(Here(r), r.key, n, r.sent[n]);
  }

  /** In every run, an uninterrupted receive returns the newest whole message of its slot, as long as the
      sender has not begun to overwrite that: the message of its turn if and only if that is written and none
      newer has been begun there. */
  lemma InOrderIff(r: Ring, n: nat, room: nat) returns (steps: seq<Step>)
    requires SlotsOk(r) && r.receiver.Idle? && r.read < r.write
    requires n < Filled(r) && Begun(r) <= n + SLOTS && n % SLOTS == r.read % SLOTS && |r.sent[n].data| <= room
    ensures IsRun(r, steps) && Final(r, steps) == Replied(r, Delivered(n, r.sent[n]))
    ensures n == r.read <==> r.read < Filled(r) && Begun(r) <= r.read + SLOTS
  {
    hide Receipt, Holds, IsRun, Final;
    steps := Alone(r, room);
    HeldReply(r, n, room);
    if n < r.read && r.read < n + SLOTS {
      PlacesApart(n, r.read);
    }
    if r.read < n && n < r.read + SLOTS {
      PlacesApart(r.read, n);
    }
  }

  /** A receiver that sees the claim before the slot is written gets the message of 64 turns ago a second time. */
  lemma StaleDelivery(r: Ring, room: nat) returns (steps: seq<Step>)
    requires SlotsOk(r) && r.receiver.Idle? && r.sender.Writing? && r.sender.words == 0
    requires r.read == r.write - 1 && r.read >= SLOTS && |r.sent[r.read - SLOTS].data| <= room
    ensures IsRun(r, steps) && Final(r, steps) == Replied(r, Delivered(r.read - SLOTS, r.sent[r.read - SLOTS]))
  {
    hide Receipt, Holds, IsRun, Final;
    assert (r.read - SLOTS) % SLOTS == r.read % SLOTS;
    steps := InOrderIff(r, r.read - SLOTS, room);
  }

  /** A receiver more than 64 messages behind skips ahead to the newest message of its slot. */
  lemma LappedDelivery(r: Ring, room: nat) returns (n: nat, steps: seq<Step>)
    requires SlotsOk(r) && r.receiver.Idle? && r.sender.Resting? && r.write > r.read + SLOTS && room >= LARGEST
    ensures r.read + SLOTS <= n < r.write && IsRun(r, steps) && Final(r, steps) == Replied(r, Delivered(n, r.sent[n]))
  {
    hide Receipt, Holds, IsRun, Final;
    var d := r.write - 1 - r.read;
    n := r.read + d / SLOTS * SLOTS;
    WholeLaps(r.read, d / SLOTS);
    assert r.sent[n] in r.sent;
    steps := InOrderIff(r, n, room);
  }

  lemma WholeLaps(read: nat, q: nat)
    ensures (read + q * SLOTS) % SLOTS == read % SLOTS
  {
  }

  // ---------------------------------------------------------------- sending whole messages

  lemma {:induction false} PutRest(r: Ring, bound: nat)
    requires RingShaped(r) && r.sender.Writing?
    ensures var n := Words(r.sender.m) - r.sender.words;
            && IsRun(r, Repeated(Put, n)) && TimelyRun(r, Repeated(Put, n), bound)
            && var t := Final(r, Repeated(Put, n));
               t == r.(slots := t.slots, sender := Resting)
    decreases Words(r.sender.m) - r.sender.words
  {
    hide Receipt, PutWord, RingShaped;
    var n := Words(r.sender.m) - r.sender.words;
    assert n > 0 by {
      WordsLeft(r);
    }
    LeadsOne(r, Put, bound);
    ApplyShaped(r, Put);
    var s := Apply(r, Put);
    RepeatedFirst(Put, n);
    if n > 1 {
      PutRest(s, bound);
      LeadsThen(r, [Put], s, Repeated(Put, n - 1), Final(s, Repeated(Put, n - 1)), bound);
    }
  }

  lemma WordsLeft(r: Ring)
    requires RingShaped(r) && r.sender.Writing?
    ensures r.sender.words < Words(r.sender.m)
  {
  }

  function Whole(m: Message): seq<Step> { [Claim(m)] + Repeated(Put, Words(m)) }

  lemma SendWhole(r: Ring, m: Message, bound: nat)
    requires RingShaped(r) && r.sender.Resting? && Fits(m) && r.write < r.read + bound
    ensures IsRun(r, Whole(m)) && TimelyRun(r, Whole(m), bound)
    ensures var t := Final(r, Whole(m)); t == r.(slots := t.slots, write := r.write + 1, sent := r.sent + [m])
  {
    hide Receipt, IsRun, Final, TimelyRun;
    LeadsOne(r, Claim(m), bound);
    ApplyShaped(r, Claim(m));
    var s := Apply(r, Claim(m));
    PutRest(s, bound);
    LeadsThen(r, [Claim(m)], s, Repeated(Put, Words(m)), Final(s, Repeated(Put, Words(m))), bound);
  }

  function Copies(m: Message, n: nat): (ms: seq<Message>)
    ensures |ms| == n && forall x <- ms :: x == m
  {
    if n == 0 then [] else Copies(m, n - 1) + [m]
  }

  lemma {:induction false} SendMany(key: Bytes, m: Message, n: nat, bound: nat) returns (steps: seq<Step>)
    requires Fits(m) && n <= bound
    ensures IsRun(Fresh(key), steps) && TimelyRun(Fresh(key), steps, bound)
    ensures var t := Final(Fresh(key), steps);
            SlotsOk(t) && t == Fresh(key).(slots := t.slots, write := n, sent := Copies(m, n))
  {
    hide Receipt, IsRun, Final, TimelyRun, NumberHeld, InProgress, Whole;
    FreshOk(key);
    if n == 0 {
      LeadsNone(Fresh(key), bound);
      steps := [];
    } else {
      steps := SendMany(key, m, n - 1, bound);
      var s := Final(Fresh(key), steps);
      SendWhole(s, m, bound);
      LeadsThen(Fresh(key), steps, s, Whole(m), Final(s, Whole(m)), bound);
      steps := steps + Whole(m);
      RunOk(Fresh(key), steps);
    }
  }

  // ---------------------------------------------------------------- one message further ahead

  const OLD: Message := Message(0, [0, 0])
  const NEW: Message := Message(0, [1])
  const TORN: Message := Message(0, [1, 0])

  /** After 64 messages the receiver checks the first one and finds it genuine. */
  lemma Checked(key: Bytes) returns (steps: seq<Step>)
    ensures IsRun(Fresh(key), steps) && TimelyRun(Fresh(key), steps, 65)
    ensures var t := Final(Fresh(key), steps);
            && RingShaped(t) && t.sender.Resting? && t.write == 64 && t.read == 0 && t.replies == []
            && t.receiver == Copying(2, 0, []) && t.sent == Copies(OLD, 64) && Here(t).data[1] == 0
  {
    hide Receipt, Leads, IsRun, Final, TimelyRun, NumberHeld;
    var send := SendMany(key, OLD, 64, 65);
    var r := Final(Fresh(key), send);
    assert Leads(Fresh(key), send, r, 65) by {
      IsLeads(Fresh(key), send, 65);
    }
    FirstHeld(r);
    LeadsOne(r, Begin(2), 65);
    ApplyShaped(r, Begin(2));
    var r1 := r.(receiver := AtLen(2));
    var look := Examine(r1, 2, 65);
    var s := Here(r);
    var r2 := r1.(receiver := Comparing(s.number, s.sender, s.data[..2], s.mac));
    LookOne(r2, 65);
    var t := LookStep(r2);
    LeadsThen(r1, look, r2, [Look], t, 65);
    LeadsThen(r, [Begin(2)], r1, look + [Look], t, 65);
    LeadsThen(Fresh(key), send, r, [Begin(2)] + (look + [Look]), t, 65);
    steps := send + ([Begin(2)] + (look + [Look]));
    LeadsIs(Fresh(key), steps, t, 65);
  }

  lemma IsLeads(r: Ring, steps: seq<Step>, bound: nat)
    requires IsRun(r, steps) && TimelyRun(r, steps, bound)
    ensures Leads(r, steps, Final(r, steps), bound)
  {
  }

  lemma LeadsIs(r: Ring, steps: seq<Step>, t: Ring, bound: nat)
    requires Leads(r, steps, t, bound)
    ensures IsRun(r, steps) && TimelyRun(r, steps, bound) && Final(r, steps) == t
  {
  }

  /** The first of 64 messages is in its slot. */
  lemma FirstHeld(r: Ring)
    requires SlotsOk(r) && r.sender.Resting? && r.write == 64 && r.read == 0 && r.sent == Copies(OLD, 64)
    ensures var s := Here(r);
            s.number == 0 && s.sender == 0 && s.len == 2 && s.data[1] == 0 && s.mac == Receipt(r.key, 0, 0, s.data[..2])
  {
    hide Receipt, Holds;
    assert r.sent[0] in r.sent && r.sent[0] == OLD;
    assert NumberHeld(r, 0);
    HoldsParts(Here(r), r.key, 0, OLD);
    assert Here(r).data[1] == Here(r).data[..2][1];
  }

  /** The sender claims number 64 and writes the first byte of its payload over the slot being copied. */
  lemma Overwrite(r: Ring) returns (steps: seq<Step>)
    requires RingShaped(r) && r.sender.Resting? && r.write == 64 && r.read == 0 && r.receiver == Copying(2, 0, [])
    requires Here(r).data[1] == 0
    ensures IsRun(r, steps) && TimelyRun(r, steps, 65)
    ensures var t := Final(r, steps);
            && RingShaped(t) && t.read == 0 && t.receiver == r.receiver && t.replies == r.replies
            && t.sent == r.sent + [NEW]
            && Here(t).data[..2] == [1, 0] && Here(t).sender == 0
  {
    hide Receipt, IsRun, Final, TimelyRun;
    LeadsOne(r, Claim(NEW), 65);
    ApplyShaped(r, Claim(NEW));
    var r0 := Apply(r, Claim(NEW));
    var r1 := PutOne(r0);
    var r2 := PutOne(r1);
    var r3 := PutOne(r2);
    var r4 := PutOne(r3);
    LeadsThen(r, [Claim(NEW)], r0, [Put], r1, 65);
    LeadsThen(r, [Claim(NEW)] + [Put], r1, [Put], r2, 65);
    LeadsThen(r, [Claim(NEW)] + [Put] + [Put], r2, [Put], r3, 65);
    LeadsThen(r, [Claim(NEW)] + [Put] + [Put] + [Put], r3, [Put], r4, 65);
    steps := [Claim(NEW)] + [Put] + [Put] + [Put] + [Put];
    var s := Here(r4);
    assert s.data[0] == 1 && s.data[1] == 0;
    assert s.data[..2] == [s.data[0], s.data[1]];
  }

  lemma PutOne(r: Ring) returns (t: Ring)
    requires RingShaped(r) && r.sender.Writing? && r.sender.words + 1 < Words(r.sender.m) && r.write == 65
    ensures Leads(r, [Put], t, 65) && RingShaped(t)
    ensures t == r.(slots := t.slots, sender := Writing(r.sender.m, r.sender.words + 1))
    ensures r.slots[0] in r.slots && t.slots[0] == PutWord(r.slots[0], r.key, 64, r.sender.m, r.sender.words)
  {
    hide Receipt, PutWord;
    assert r.slots[0] in r.slots;
    LeadsOne(r, Put, 65);
    ApplyShaped(r, Put);
    t := PutStep(r);
  }

  /** One message more than 64 ahead, the sender can reach the slot between the receiver's check and its copy:
      the caller is given, as genuine, a payload that nobody sent. */
  lemma TornDelivery(key: Bytes) returns (steps: seq<Step>)
    ensures IsRun(Fresh(key), steps) && TimelyRun(Fresh(key), steps, 65)
    ensures var t := Final(Fresh(key), steps); t.replies == [Delivered(0, TORN)] && TORN !in t.sent && !InOrder(t)
  {
    hide Receipt, IsRun, Final, TimelyRun, RingShaped;
    var check := Checked(key);
    var r := Final(Fresh(key), check);
    var over := Overwrite(r);
    var r1 := Final(r, over);
    var rest := Deliver(r1, 2, 0, [], 65);
    var s := Here(r1);
    assert [] + s.data[0..2] == [1, 0];
    var t := Answer(r1.(read := 1), Delivered(0, TORN));
    LeadsThen(Fresh(key), check, r, over, r1, 65);
    LeadsThen(Fresh(key), check + over, r1, rest, t, 65);
    steps := check + over + rest;
    NeverSent(t);
  }

  lemma NeverSent(t: Ring)
    requires t.replies == [Delivered(0, TORN)] && t.read == 1 && t.sent == Copies(OLD, 64) + [NEW]
    ensures TORN !in t.sent && !InOrder(t)
  {
    GotMore([], Delivered(0, TORN));
    assert [] + [Delivered(0, TORN)] == [Delivered(0, TORN)];
    assert t.sent[0] in Copies(OLD, 64);
    assert Got(t.replies)[0] == TORN && t.sent[..1][0] == t.sent[0];
  }

  lemma {:induction false} LooserBound(r: Ring, steps: seq<Step>, a: nat, b: nat)
    requires IsRun(r, steps) && TimelyRun(r, steps, a) && a <= b
    ensures TimelyRun(r, steps, b)
    decreases |steps|
  {
    hide Apply;
    if steps != [] {
      LooserBound(Apply(r, steps[0]), steps[1..], a, b);
    }
  }

  /** Receives that begin on written messages deliver in order in every interleaving if and only if the sender
      is kept at most 64 messages ahead. */
  lemma BoundIff(key: Bytes, bound: nat)
    ensures (forall steps | IsRun(Fresh(key), steps) && TimelyRun(Fresh(key), steps, bound) ::
               InOrder(Final(Fresh(key), steps)))
            <==> bound <= SLOTS
  {
    hide IsRun, Final, TimelyRun, InOrder;
    if bound <= SLOTS {
      forall steps | IsRun(Fresh(key), steps) && TimelyRun(Fresh(key), steps, bound)
        ensures InOrder(Final(Fresh(key), steps))
      {
        LooserBound(Fresh(key), steps, bound, SLOTS);
        FifoTheorem(key, steps);
      }
    } else {
      var steps := TornDelivery(key);
      LooserBound(Fresh(key), steps, 65, bound);
    }
  }

  // ---------------------------------------------------------------- a receive that begins too early

  /** `n` messages sent and received one by one. */
  lemma {:induction false} RoundTrips(key: Bytes, n: nat) returns (steps: seq<Step>)
    ensures IsRun(Fresh(key), steps)
    ensures var t := Final(Fresh(key), steps);
            && SlotsOk(t) && t.sender.Resting? && t.receiver.Idle? && t.write == n && t.read == n && t.key == key
            && t.sent == Copies(OLD, n) && Got(t.replies) == Copies(OLD, n)
  {
    hide Receipt, IsRun, Final, TimelyRun, NumberHeld, InProgress, Whole, Got;
    FreshOk(key);
    if n == 0 {
      LeadsNone(Fresh(key), 0);
      assert Got([]) == [] by {
        NothingGot();
      }
      steps := [];
    } else {
      steps := RoundTrips(key, n - 1);
      var s := Final(Fresh(key), steps);
      SendWhole(s, OLD, 1);
      RunOk(s, Whole(OLD));
      var t := Final(s, Whole(OLD));
      assert t.sent[n - 1] == OLD;
      var receive := InOrderIff(t, n - 1, 2);
      RunConcat(s, Whole(OLD), receive);
      RunConcat(Fresh(key), steps, Whole(OLD) + receive);
      steps := steps + (Whole(OLD) + receive);
      RunOk(Fresh(key), steps);
      GotMore(t.replies, Delivered(n - 1, OLD));
    }
  }

  lemma NothingGot()
    ensures Got([]) == []
  {
  }

  /** With the sender never even two messages ahead, a receive that begins on a claimed but unwritten message breaks the
      order: the first message arrives a second time in place of the sixty-fifth. */
  lemma EarlyBegin(key: Bytes) returns (steps: seq<Step>)
    ensures IsRun(Fresh(key), steps)
    ensures var t := Final(Fresh(key), steps);
            t.read == 65 && t.sent == Copies(OLD, SLOTS) + [NEW] && Got(t.replies) == Copies(OLD, SLOTS) + [OLD]
  {
    hide Receipt, IsRun, Final, NumberHeld, InProgress, Got;
    steps := RoundTrips(key, SLOTS);
    var s := Final(Fresh(key), steps);
    RunOne(s, Claim(NEW));
    ClaimOk(s, NEW);
    var t := Apply(s, Claim(NEW));
    assert t.sent[0] == Copies(OLD, SLOTS)[0] && Copies(OLD, SLOTS)[0] in Copies(OLD, SLOTS);
    var receive := StaleDelivery(t, 2);
    RunConcat(s, [Claim(NEW)], receive);
    RunConcat(Fresh(key), steps, [Claim(NEW)] + receive);
    steps := steps + ([Claim(NEW)] + receive);
    GotMore(t.replies, Delivered(0, OLD));
  }
}
