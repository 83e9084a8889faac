/** One direction of a channel as cc_proc.c runs it: a byte buffer with a head and a tail, updated in place. */
module CryptoRings {
  import opened ByteSeq
  import opened Aes
  import opened Gcm
  import opened CryptoIpc
  import opened CryptoTable
  import GcmCode

  /** `memcpy` into the ring. */
  method WriteAt(a: array<bv8>, at: nat, data: Bytes)
    requires at + |data| <= a.Length
    modifies a
    ensures a[..] == old(a[..])[..at] + data + old(a[..])[at + |data|..]
  {
    ghost var was := a[..];
    var j := 0;
    while j < |data|
      invariant 0 <= j <= |data|
      invariant a[..] == was[..at] + data[..j] + was[at + j..]
    {
      a[at + j] := data[j];
      j := j + 1;
    }
  }

  class CryptoRing {
    const key: Key                 // the channel's session key
    const bytes: array<bv8>
    var head: nat
    var tail: nat
    ghost var traffic: Traffic     // what the two ends have seen

    ghost predicate Valid()
      reads this, bytes
    {
      bytes.Length == RING && Fifo(View(), key, traffic)
    }

    ghost function View(): Ring
      reads this, bytes
    {
      Ring(bytes[..], head, tail)
    }

    constructor (sessionKey: Key)
      ensures Valid() && View() == EmptyRing() && traffic == SILENT && key == sessionKey && fresh(bytes)
    {
      key := sessionKey;
      bytes := new bv8[RING](i => 0);
      head, tail, traffic := 0, 0, SILENT;
      new;
      assert bytes[..] == Repeat(0, RING);
      FreshFifo(key);
    }

    /** The part of `cc_ipc_send` after the channel is found: the message joins the queue, or the ring is too
        full and unchanged. */
    method Send(nonce: Nonce, message: Bytes) returns (code: int)
      requires Valid() && 0 < |message| <= HALF
      modifies this, bytes
      ensures Valid()
      ensures code == if old(tail) + OVERHEAD + |message| <= RING then |message| else -ENOBUFS
      ensures traffic == AfterSend(old(traffic), code, key, nonce, message)
      ensures View() == SendOn(old(View()), key, nonce, message).ring
    {
      hide Seal, Holds, AllCarry;
      ghost var before := View();
      SendKeeps(before, key, traffic.waiting, nonce, message);
      SendFifo(before, key, traffic, nonce, message);
      RingBounds(before, traffic.waiting);
      var size := 12 + 4 + |message| + 16;
      if tail + size > RING {
        return -ENOBUFS;
      }
      var text := new bv8[|message|];
      var tag := GcmCode.DriverEncrypt(key, nonce, message, nonce, text);
      assert text[..|message|] == text[..];
      WriteAt(bytes, tail, nonce + PutLe32(|message|) + text[..] + tag);
      tail := tail + size;
      code := |message|;
      traffic := AfterSend(traffic, code, key, nonce, message);
    }

    /** The part of `cc_ipc_recv` after the channel is found: the oldest message, or an error and nothing changed. */
    method Recv(buf: array<bv8>) returns (code: int)
      requires Valid() && buf != bytes
      modifies this, buf
      ensures Valid()
      ensures code == if old(traffic).waiting == [] then -EAGAIN
                      else if |old(traffic).waiting[0].message| > buf.Length then -EMSGSIZE
                      else |old(traffic).waiting[0].message|
      ensures code >= 0 ==> code <= buf.Length && buf[..code] == old(traffic).waiting[0].message
      ensures code < 0 ==> buf[..] == old(buf[..]) && View() == old(View())
      ensures traffic == AfterRecv(old(traffic), code, if code >= 0 then buf[..code] else [])
    {
      hide RecvOn, Holds, AllCarry;
      ghost var before, room := View(), buf.Length;
      RecvKeeps(before, key, traffic.waiting, room);
      RecvFifo(before, key, traffic, room);
      HeaderInside(before, key, traffic.waiting);
      code := Take(buf);
      traffic := AfterRecv(traffic, code, if code >= 0 then buf[..code] else []);
    }

    /** The frame at the head, decrypted into `buf`. */
    method Take(buf: array<bv8>) returns (code: int)
      requires bytes.Length == RING && buf != bytes && head <= tail <= RING
      requires head == tail || head + OVERHEAD <= tail
      modifies `head, `tail, buf
      ensures var s := RecvOn(old(View()), key, buf.Length);
              && View() == s.ring && code == s.code
              && (code >= 0 ==> code <= buf.Length && buf[..code] == s.text)
              && (code < 0 ==> buf[..] == old(buf[..]))
    {
      hide Open, Le32;
      if head == tail {
        return -EAGAIN;
      }
      var nonce := bytes[head..head + 12];
      var n := Le32(bytes[head + 12..head + 16]);
      if n > HALF || n > buf.Length {
        return -EMSGSIZE;
      }
      var end := head + 12 + 4 + n + 16;
      if end > RING {
        return -EBADMSG;
      }
      var text, tag := bytes[head + 16..head + 16 + n], bytes[head + 16 + n..end];
      var rc := GcmCode.DriverDecrypt(key, nonce, text, tag, nonce, buf);
      head := end;
      if head >= tail {
        head, tail := 0, 0;
      }
      code := if rc != 0 then -EACCES else n;
    }
  }

  lemma RingBounds(r: Ring, frames: seq<Framed>)
    requires Holds(r, frames)
    ensures |r.bytes| == RING && r.head <= r.tail <= RING
  {
  }

  lemma HeaderInside(r: Ring, key: Key, frames: seq<Framed>)
    requires Holds(r, frames) && AllCarry(key, frames)
    ensures r.head == r.tail || r.head + OVERHEAD <= r.tail
    ensures |r.bytes| == RING && r.head <= r.tail <= RING
  {
    hide Open, Le32, Layout;
    LayoutEmpty(key, frames);
    if frames != [] {
      assert Carries(key, frames[0]);
      Oldest(r, frames);
    }
  }
}
