/** The encrypted channels of drivers/cortexcrypto/core/cc_proc.c: frames in a byte ring, one ring per direction. */
module CryptoIpc {
  import opened ByteSeq
  import opened Aes
  import opened Gcm

  const RING: nat := 16384
  const HALF: nat := 8192
  const OVERHEAD: nat := 32        // nonce, length and tag

  const EAGAIN: int := 35
  const EACCES: int := 13
  const EBADF: int := 9
  const EBADMSG: int := 74
  const EINVAL: int := 22
  const EMSGSIZE: int := 90
  const ENOBUFS: int := 105
  const ENOMEM: int := 12

  // ---------------------------------------------------------------- frames

  /** The low byte of `n`. */
  function Octet(n: nat): bv8 { Count(n % 256) }

  function Count(m: nat): bv8 { if m == 0 then 0 else Count(m - 1) + 1 }

  /** A `u32` in memory order. */
  function PutLe32(n: nat): (r: Bytes)
    ensures |r| == 4
  {
    [Octet(n), Octet(n / 256), Octet(n / 256 / 256), Octet(n / 256 / 256 / 256)]
  }

  function Le32(b: Bytes): nat
    requires |b| == 4
  {
    b[0] as nat + 256 * (b[1] as nat + 256 * (b[2] as nat + 256 * (b[3] as nat)))
  }

  lemma OneMore(b: bv8)
    requires b as nat < 255
    ensures (b + 1) as nat == b as nat + 1
  {
  }

  lemma {:induction false} CountBack(m: nat)
    requires m < 256
    ensures Count(m) as nat == m
  {
    if m > 0 {
      CountBack(m - 1);
      OneMore(Count(m - 1));
    }
  }

  lemma OctetBack(n: nat)
    ensures Octet(n) as nat == n % 256
  {
    CountBack(n % 256);
  }

  lemma Digits(n: nat)
    requires n < 0x1_0000_0000
    ensures n == n % 256 + 256 * (n / 256 % 256 + 256 * (n / 256 / 256 % 256 + 256 * (n / 256 / 256 / 256 % 256)))
  {
    var a, b := n / 256, n / 256 / 256;
    assert b / 256 < 256;
    assert b == b % 256 + 256 * (b / 256);
    assert a == a % 256 + 256 * b;
  }

  lemma Le32Back(n: nat)
    requires n < 0x1_0000_0000
    ensures Le32(PutLe32(n)) == n
  {
    hide Octet;
    OctetBack(n);
    OctetBack(n / 256);
    OctetBack(n / 256 / 256);
    OctetBack(n / 256 / 256 / 256);
    Digits(n);
  }

  /** nonce, length, ciphertext and tag, with the nonce as associated data. */
  function Frame(key: Key, nonce: Nonce, message: Bytes): (f: Bytes)
    ensures |f| == OVERHEAD + |message|
  {
    var s := Seal(key, nonce, nonce, message);
    nonce + PutLe32(|message|) + s.text + s.tag
  }

  /** A frame in the ring and the message it carries. */
  datatype Framed = Framed(bytes: Bytes, message: Bytes)

  /** Read the way the receiver reads it, the frame gives its message. */
  ghost predicate Carries(key: Key, f: Framed)
  {
    var n := |f.message|;
    && 0 < n <= HALF && |f.bytes| == OVERHEAD + n && Le32(f.bytes[12..16]) == n
    && Open(key, f.bytes[..12], f.bytes[..12], f.bytes[16..16 + n], f.bytes[16 + n..]) == Plain(f.message)
  }

  lemma FrameCarries(key: Key, nonce: Nonce, message: Bytes)
    requires 0 < |message| <= HALF
    ensures Carries(key, Framed(Frame(key, nonce, message), message))
  {
    hide Seal, Open, PutLe32, Le32;
    var s := Seal(key, nonce, nonce, message);
    var f := Frame(key, nonce, message);
    SealOpen(key, nonce, nonce, message, s.tag);
    Le32Back(|message|);
    FrameSlices(nonce, PutLe32(|message|), s.text, s.tag);
  }

  lemma FrameSlices(nonce: Nonce, len: Bytes, text: Bytes, tag: State)
    requires |len| == 4
    ensures var f := nonce + len + text + tag;
            && |f| == OVERHEAD + |text| && f[..12] == nonce && f[12..16] == len
            && f[16..16 + |text|] == text && f[16 + |text|..] == tag
  {
  }

  function Layout(frames: seq<Framed>): Bytes
  {
    if frames == [] then [] else frames[0].bytes + Layout(frames[1..])
  }

  lemma {:induction false} LayoutAppend(frames: seq<Framed>, last: Framed)
    ensures Layout(frames + [last]) == Layout(frames) + last.bytes
  {
    if frames == [] {
      assert [last][1..] == [];
      assert Layout([last]) == last.bytes + [];
      assert frames + [last] == [last];
    } else {
      assert (frames + [last])[1..] == frames[1..] + [last];
      LayoutAppend(frames[1..], last);
    }
  }

  // ---------------------------------------------------------------- one ring

  datatype Ring = Ring(bytes: Bytes, head: nat, tail: nat)

  function EmptyRing(): Ring { Ring(Repeat(0, RING), 0, 0) }

  ghost predicate AllCarry(key: Key, frames: seq<Framed>) { forall f <- frames :: Carries(key, f) }

  /** The bytes between head and tail are exactly the frames not yet received, and an empty ring is back at its
      start. */
  ghost predicate Holds(r: Ring, frames: seq<Framed>)
  {
    && |r.bytes| == RING && r.head <= r.tail <= RING
    && r.bytes[r.head..r.tail] == Layout(frames)
    && (frames == [] ==> r.head == 0)
  }

  datatype Reply = Reply(ring: Ring, code: int, text: Bytes)

  /** `cc_ipc_send` on the ring it found. */
  function SendOn(r: Ring, key: Key, nonce: Nonce, message: Bytes): Reply
    requires |r.bytes| == RING
  {
    if r.tail + OVERHEAD + |message| > RING then Reply(r, -ENOBUFS, [])
    else
      var f := Frame(key, nonce, message);
      Reply(Ring(r.bytes[..r.tail] + f + r.bytes[r.tail + |f|..], r.head, r.tail + |f|), |message|, [])
  }

  /** `cc_ipc_recv` on the ring it found, with a buffer of `room` bytes.  The source reads a header that would
      run past the end of the ring without testing; the test here stands for that read, which no ring that
      `Holds` frames reaches. */
  function RecvOn(r: Ring, key: Key, room: nat): Reply
    requires |r.bytes| == RING
  {
    if r.head == r.tail then Reply(r, -EAGAIN, [])
    else if r.head + 16 > RING then Reply(r, -EBADMSG, [])
    else
      var nonce := r.bytes[r.head..r.head + 12];
      var n := Le32(r.bytes[r.head + 12..r.head + 16]);
      if n > HALF || n > room then Reply(r, -EMSGSIZE, [])
      else if r.head + OVERHEAD + n > RING then Reply(r, -EBADMSG, [])
      else
        var body := r.bytes[r.head + 16..r.head + 16 + n];
        var tag := r.bytes[r.head + 16 + n..r.head + OVERHEAD + n];
        var head := r.head + OVERHEAD + n;
        var ring := if head >= r.tail then r.(head := 0, tail := 0) else r.(head := head);
        match Open(key, nonce, nonce, body, tag)
        case Plain(text) => Reply(ring, n, text)
        case Rejected => Reply(ring, -EACCES, [])
  }

  /** Sending appends the frame or, when it does not fit behind the tail, changes nothing; an empty ring takes
      any message. */
  lemma SendKeeps(r: Ring, key: Key, frames: seq<Framed>, nonce: Nonce, message: Bytes)
    requires Holds(r, frames) && AllCarry(key, frames) && 0 < |message| <= HALF
    ensures var s := SendOn(r, key, nonce, message);
            var more := frames + [Framed(Frame(key, nonce, message), message)];
            && s.code == (if r.tail + OVERHEAD + |message| <= RING then |message| else -ENOBUFS)
            && (s.code >= 0 ==> Holds(s.ring, more) && AllCarry(key, more))
            && (s.code < 0 ==> s.ring == r)
            && (frames == [] ==> s.code == |message|)
  {
    hide Frame, Open, Le32, Layout;
    FrameCarries(key, nonce, message);
    var f := Framed(Frame(key, nonce, message), message);
    LayoutAppend(frames, f);
    LayoutEmpty(key, frames);
    if r.tail + OVERHEAD + |message| <= RING {
      Append(r, f.bytes);
    }
  }

  lemma Append(r: Ring, f: Bytes)
    requires |r.bytes| == RING && r.head <= r.tail && r.tail + |f| <= RING
    ensures (r.bytes[..r.tail] + f + r.bytes[r.tail + |f|..])[r.head..r.tail + |f|] == r.bytes[r.head..r.tail] + f
  {
  }

  lemma LayoutEmpty(key: Key, frames: seq<Framed>)
    requires AllCarry(key, frames)
    ensures Layout(frames) == [] <==> frames == []
  {
    hide Open, Le32;
    if frames != [] {
      assert Carries(key, frames[0]);
    }
  }

  /** Receiving takes the oldest message whole and unaltered; without one, or without room for it, nothing changes. */
  lemma RecvKeeps(r: Ring, key: Key, frames: seq<Framed>, room: nat)
    requires Holds(r, frames) && AllCarry(key, frames)
    ensures var s := RecvOn(r, key, room);
            && (frames == [] ==> s == Reply(r, -EAGAIN, []))
            && (frames != [] && |frames[0].message| > room ==> s == Reply(r, -EMSGSIZE, []))
            && (frames != [] && |frames[0].message| <= room ==>
                  s.code == |frames[0].message| && s.text == frames[0].message && Holds(s.ring, frames[1..]))
  {
    hide Open, Le32, Layout;
    LayoutEmpty(key, frames);
    if frames != [] {
      var f := frames[0];
      assert Carries(key, f);
      Oldest(r, frames);
      LayoutEmpty(key, frames[1..]);
      var n := |f.message|;
      Parts(r.bytes, r.head, f.bytes, n);
      assert r.bytes[0..0] == [];
    }
  }

  lemma Parts(bytes: Bytes, head: nat, f: Bytes, n: nat)
    requires |f| == OVERHEAD + n && head + |f| <= |bytes| && f == bytes[head..head + |f|]
    ensures f[..12] == bytes[head..head + 12] && f[12..16] == bytes[head + 12..head + 16]
    ensures f[16..16 + n] == bytes[head + 16..head + 16 + n]
    ensures f[16 + n..] == bytes[head + 16 + n..head + OVERHEAD + n]
  {
    SubSlice(bytes, head, |f|, 0, 12);
    SubSlice(bytes, head, |f|, 12, 16);
    SubSlice(bytes, head, |f|, 16, 16 + n);
    SubSlice(bytes, head, |f|, 16 + n, |f|);
  }

  lemma SubSlice(bytes: Bytes, head: nat, len: nat, i: nat, j: nat)
    requires head + len <= |bytes| && i <= j <= len
    ensures bytes[head..head + len][i..j] == bytes[head + i..head + j]
  {
    var whole := bytes[head..head + len];
    var a, b := whole[i..j], bytes[head + i..head + j];
    forall k | 0 <= k < j - i
      ensures a[k] == b[k]
    {
      assert whole[i + k] == bytes[head + (i + k)];
    }
  }

  lemma Oldest(r: Ring, frames: seq<Framed>)
    requires Holds(r, frames) && frames != []
    ensures var f := frames[0].bytes;
            && r.head + |f| <= r.tail && f == r.bytes[r.head..r.head + |f|]
            && r.bytes[r.head + |f|..r.tail] == Layout(frames[1..])
  {
    var f, rest := frames[0].bytes, Layout(frames[1..]);
    var span := r.bytes[r.head..r.tail];
    assert span == f + rest;
    assert f == span[..|f|] && rest == span[|f|..];
    SubSlice(r.bytes, r.head, r.tail - r.head, 0, |f|);
    SubSlice(r.bytes, r.head, r.tail - r.head, |f|, r.tail - r.head);
  }
}
