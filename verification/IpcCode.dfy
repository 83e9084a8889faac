/** `ipc_send` and `ipc_recv` of ipc/ipc.c on a connected channel, with the slots updated in place. */
module IpcCode {
  import opened ByteSeq
  import opened Hkdf
  import opened IpcRing
  import opened IpcRuns
  import CryptoIpc

  lemma DiffStep(diff: bv8, a: bv8, b: bv8)
    ensures diff | (a ^ b) == 0 <==> diff == 0 && a == b
  {
  }

  /** The receipt comparison, without an early exit. */
  method Differ(a: Bytes, b: Bytes) returns (diff: bv8)
    requires |a| == |b|
    ensures diff == 0 <==> a == b
  {
    diff := 0;
    var i := 0;
    while i < |a|
      invariant 0 <= i <= |a| && (diff == 0 <==> a[..i] == b[..i])
    {
      DiffStep(diff, a[i], b[i]);
      assert a[..i + 1] == a[..i] + [a[i]] && b[..i + 1] == b[..i] + [b[i]];
      diff := diff | (a[i] ^ b[i]);
      i := i + 1;
    }
    assert a[..i] == a && b[..i] == b;
  }

  class IpcChannel {
    const key: Bytes
    const slots: array<Slot>
    var writeSeq: nat
    var readSeq: nat
    var failures: nat              // receipts that did not match
    ghost var sent: seq<Message>
    ghost var replies: seq<Reply>

    ghost predicate Valid()
      reads this, slots
    {
      slots.Length == SLOTS && SlotsOk(View())
    }

    ghost function View(): Ring
      reads this, slots
    {
      Ring(key, writeSeq, readSeq, slots[..], Resting, Idle, sent, replies)
    }

    /** `ipc_create` and `ipc_connect`: an empty ring under the channel key. */
    constructor (channelKey: Bytes)
      ensures Valid() && key == channelKey && View() == Fresh(key) && fresh(slots)
    {
      key := channelKey;
      slots := new Slot[SLOTS](i => ZEROED);
      writeSeq, readSeq, failures, sent, replies := 0, 0, 0, [], [];
      new;
      assert forall k | 0 <= k < SLOTS :: Blank(SLOTS)[k] in Blank(SLOTS);
      assert slots[..] == Blank(SLOTS);
      FreshOk(key);
    }

    /** One slot filled field by field and byte by byte. */
    method Write(j: nat, number: nat, m: Message)
      requires slots.Length == SLOTS && j < SLOTS && Shaped(slots[j]) && Fits(m)
      modifies slots
      ensures Shaped(slots[j]) && Holds(slots[j], key, number, m)
      ensures forall k | 0 <= k < SLOTS && k != j :: slots[k] == old(slots[k])
    {
      hide Receipt, Hmac;
      slots[j] := slots[j].(number := number, sender := m.sender, len := |m.data|);
      var i := 0;
      while i < |m.data|
        invariant 0 <= i <= |m.data| && Shaped(slots[j]) && HasWords(slots[j], key, number, m, 3 + i)
        invariant forall k | 0 <= k < SLOTS && k != j :: slots[k] == old(slots[k])
      {
        slots[j] := slots[j].(data := slots[j].data[i := m.data[i]]);
        i := i + 1;
      }
      ReceiptIs(key, number, m);
      var mac := HmacSha256(key, PutLe64(number) + CryptoIpc.PutLe32(m.sender) + m.data);
      i := 0;
      while i < 32
        invariant 0 <= i <= 32 && Shaped(slots[j]) && HasWords(slots[j], key, number, m, 3 + |m.data| + i)
        invariant forall k | 0 <= k < SLOTS && k != j :: slots[k] == old(slots[k])
      {
        slots[j] := slots[j].(mac := slots[j].mac[i := mac[i]]);
        i := i + 1;
      }
    }

    /** `ipc_send`, with the lock held from the claim to the written slot. */
    method Send(m: Message) returns (code: int)
      requires Valid()
      modifies this, slots
      ensures Valid() && readSeq == old(readSeq) && replies == old(replies)
      ensures !Fits(m) ==> code == -EMSGSIZE && View() == old(View())
      ensures Fits(m) ==> code == |m.data| && writeSeq == old(writeSeq) + 1 && sent == old(sent) + [m]
    {
      hide Receipt, Holds;
      if |m.data| > LARGEST {
        return -EMSGSIZE;
      }
      ghost var before := View();
      var number := writeSeq;
      assert slots[..][number % SLOTS] in slots[..];
      Write(number % SLOTS, number, m);
      writeSeq := number + 1;
      sent := sent + [m];
      code := |m.data|;
      SentOk(before, View(), m);
    }

    /** `ipc_recv` into `buf` while no sender runs: the answer the slot calls for; an error leaves ring and
        buffer alone. */
    method Recv(buf: array<bv8>) returns (code: int, sender: nat)
      requires Valid() && buf as object != slots as object
      modifies this, buf
      ensures Valid() && sent == old(sent) && writeSeq == old(writeSeq)
      ensures old(readSeq) >= writeSeq ==> code == -EAGAIN && buf[..] == old(buf[..]) && View() == old(View())
      ensures old(readSeq) < writeSeq ==>
                var reply := AloneReply(Here(old(View())), key, buf.Length);
                && View() == Replied(old(View()), reply)
                && match reply
                   case Delivered(number, m) =>
                     code == |m.data| <= buf.Length && sender == m.sender && buf[..code] == m.data
                   case Failed(c) => code == c && buf[..] == old(buf[..])
    {
      hide Receipt, NumberHeld, Hmac;
      ghost var before := View();
      sender := 0;
      if readSeq >= writeSeq {
        code := -EAGAIN;
        return;
      }
      assert slots[..][readSeq % SLOTS] in slots[..];
      var s := slots[readSeq % SLOTS];
      RepliedOk(before, AloneReply(s, key, buf.Length));
      if s.len > buf.Length {
        code := -ERANGE;
        replies := replies + [Failed(-ERANGE)];
        return;
      }
      var payload := s.data[..s.len];
      var expected := HmacSha256(key, PutLe64(s.number) + CryptoIpc.PutLe32(s.sender) + payload);
      ReceiptIs(key, s.number, Message(s.sender, payload));
      var diff := Differ(expected, s.mac);
      assert View() == before;
      if diff != 0 {
        failures := failures + 1;
        replies := replies + [Failed(-EBADMSG)];
        code := -EBADMSG;
        return;
      }
      forall i | 0 <= i < |payload| {
        buf[i] := payload[i];
      }
      assert buf[..|payload|] == payload;
      assert slots[..] == before.slots;
      sender := s.sender;
      readSeq := readSeq + 1;
      replies := replies + [Delivered(s.number, Message(s.sender, payload))];
      code := |payload|;
    }
  }

  lemma ReceiptIs(key: Bytes, number: nat, m: Message)
    ensures Receipt(key, number, m.sender, m.data)
         == Hmac(key, PutLe64(number) + CryptoIpc.PutLe32(m.sender) + m.data)
  {
    hide Hmac;
  }

  /** A whole message in its slot, the other slots unchanged. */
  lemma SentOk(r: Ring, t: Ring, m: Message)
    requires SlotsOk(r) && r.sender.Resting? && r.receiver.Idle? && Fits(m) && |t.slots| == SLOTS
    requires t == r.(slots := t.slots, write := r.write + 1, sent := r.sent + [m])
    requires forall k | 0 <= k < SLOTS && k != r.write % SLOTS :: t.slots[k] == r.slots[k]
    requires Shaped(t.slots[r.write % SLOTS]) && Holds(t.slots[r.write % SLOTS], r.key, r.write, m)
    ensures SlotsOk(t)
  {
    hide Holds, Receipt;
    forall s | s in t.slots
      ensures Shaped(s)
    {
      var k :| 0 <= k < SLOTS && t.slots[k] == s;
      assert r.slots[k] in r.slots;
    }
    forall n: nat | n < t.write && t.write <= n + SLOTS
      ensures NumberHeld(t, n)
    {
      if n < r.write {
        PlacesApart(n, r.write);
        assert NumberHeld(r, n);
      }
    }
  }

  lemma RepliedOk(r: Ring, reply: Reply)
    requires SlotsOk(r) && r.receiver.Idle? && r.read < r.write
    ensures SlotsOk(Replied(r, reply))
  {
    hide Holds, HasWords, Receipt;
    var t := Replied(r, reply);
    forall n: nat | n < Filled(t) && Begun(t) <= n + SLOTS
      ensures NumberHeld(t, n)
    {
      assert NumberHeld(r, n);
    }
  }
}
