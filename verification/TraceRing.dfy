/**
 The per-process trace ring of kernel/trace.c as interleaved steps of one producer and one consumer.  An
 entry is eight words; copying into a slot and reading a slot are one word at a time, so that a torn entry
 is expressible.  `log` and `out` record what was written and what all reads have returned.
 */
module TraceRing {

  const SLOTS: nat := 1024
  const WORDS: nat := 8

  type Entry = e: seq<nat> | |e| == 8 witness [0, 0, 0, 0, 0, 0, 0, 0]

  /** `trace_write`: idle, or copying an entry into the slot of position `pos`, `k` words done. */
  datatype Producer = Quiet | Copying(e: Entry, pos: nat, k: nat)

  /** `trace_read`: idle, holding the read position, or copying out `avail` entries from `rpos`. */
  datatype Consumer =
    | Away
    | AtRead(rpos: nat, max: nat)
    | Reading(rpos: nat, avail: nat, buf: seq<Entry>, part: seq<nat>)

  datatype Ring = Ring(writePos: nat, committed: nat, readPos: nat, slots: seq<Entry>,
                       prod: Producer, cons: Consumer, log: seq<Entry>, out: seq<Entry>)

  datatype Step =
    | Claim(e: Entry)          // write_pos incremented, slot index taken
    | CopyWord                 // one word of the entry stored into the slot
    | Publish                  // write_committed incremented
    | LoadRead(max: nat)       // read_pos loaded
    | LoadCommitted            // write_committed loaded, number of entries decided
    | ReadWord                 // one word of a slot loaded
    | StoreRead                // read_pos stored, entries handed to the caller

  predicate Shaped(r: Ring) { |r.slots| == SLOTS }

  predicate Enabled(r: Ring, step: Step)
  {
    match step
    case Claim(_) => r.prod.Quiet?
    case CopyWord => r.prod.Copying? && r.prod.k < WORDS
    case Publish => r.prod.Copying? && r.prod.k == WORDS
    case LoadRead(_) => r.cons.Away?
    case LoadCommitted => r.cons.AtRead? && r.cons.rpos <= r.committed
    case ReadWord => r.cons.Reading? && |r.cons.buf| < r.cons.avail && |r.cons.part| < WORDS
    case StoreRead => r.cons.Reading? && |r.cons.buf| == r.cons.avail
  }

  function Apply(r: Ring, step: Step): (r': Ring)
    requires Shaped(r) && Enabled(r, step)
    ensures Shaped(r')
  {
    match step
    case Claim(e) => r.(writePos := r.writePos + 1, prod := Copying(e, r.writePos, 0), log := r.log + [e])
    case CopyWord =>
      var slot := r.prod.pos % SLOTS;
      r.(slots := r.slots[slot := r.slots[slot][r.prod.k := r.prod.e[r.prod.k]]], prod := r.prod.(k := r.prod.k + 1))
    case Publish => r.(committed := r.committed + 1, prod := Quiet)
    case LoadRead(max) => r.(cons := AtRead(r.readPos, max))
    case LoadCommitted =>
      var ready := r.committed - r.cons.rpos;
      r.(cons := Reading(r.cons.rpos, if ready < r.cons.max then ready else r.cons.max, [], []))
    case ReadWord =>
      var slot := (r.cons.rpos + |r.cons.buf|) % SLOTS;
      var part := r.cons.part + [r.slots[slot][|r.cons.part|]];
      r.(cons := if |part| == WORDS then r.cons.(buf := r.cons.buf + [part], part := []) else r.cons.(part := part))
    case StoreRead => r.(readPos := r.cons.rpos + r.cons.avail, cons := Away, out := r.out + r.cons.buf)
  }

  const BLANK: Entry := [0, 0, 0, 0, 0, 0, 0, 0]

  function Blanks(n: nat): (s: seq<Entry>)
    ensures |s| == n
  {
    if n == 0 then [] else [BLANK] + Blanks(n - 1)
  }

  function Init(): (r: Ring)
    ensures Shaped(r)
  {
    Ring(0, 0, 0, Blanks(SLOTS), Quiet, Away, [], [])
  }

  /** The producer never runs more than a full ring ahead of the reader. */
  predicate InBounds(r: Ring, step: Step)
  {
    step.Claim? ==> r.writePos < r.readPos + SLOTS
  }

  // ---------------------------------------------------------------- the invariant

  predicate Counters(r: Ring)
  {
    && |r.log| == r.writePos && r.readPos <= r.committed <= r.writePos <= r.readPos + SLOTS
    && (if r.prod.Quiet? then r.writePos == r.committed
        else r.writePos == r.committed + 1 && r.prod.pos == r.committed && r.prod.e == r.log[r.committed]
             && r.prod.k <= WORDS)
  }

  predicate Stored(r: Ring)
    requires Shaped(r) && Counters(r)
  {
    && (forall p: nat | r.readPos <= p < r.committed :: r.slots[p % SLOTS] == r.log[p])
    && (r.prod.Copying? ==> r.slots[r.prod.pos % SLOTS][..r.prod.k] == r.prod.e[..r.prod.k])
  }

  predicate ReaderOk(r: Ring)
    requires Counters(r)
  {
    match r.cons
    case Away => true
    case AtRead(rpos, _) => rpos == r.readPos
    case Reading(rpos, avail, buf, part) =>
      && rpos == r.readPos && rpos + avail <= r.committed && |buf| <= avail && |part| < WORDS
      && buf == r.log[rpos..rpos + |buf|]
      && (|buf| < avail ==> part == r.log[rpos + |buf|][..|part|])
      && (|buf| == avail ==> part == [])
  }

  /** What has been read is exactly the log up to the read position. */
  predicate Inv(r: Ring)
  {
    Shaped(r) && Counters(r) && Stored(r) && ReaderOk(r) && r.out == r.log[..r.readPos]
  }

  lemma OtherSlot(p: nat, q: nat)
    requires p < q < p + SLOTS
    ensures p % SLOTS != q % SLOTS
  {
  }

  lemma CopyKeeps(r: Ring)
    requires Inv(r) && Enabled(r, CopyWord)
    ensures Inv(Apply(r, CopyWord))
  {
    var r' := Apply(r, CopyWord);
    var slot, k := r.prod.pos % SLOTS, r.prod.k;
    forall p: nat | r.readPos <= p < r.committed ensures r'.slots[p % SLOTS] == r'.log[p] {
      OtherSlot(p, r.prod.pos);
    }
    assert r'.slots[slot][..k + 1] == r.slots[slot][..k] + [r.prod.e[k]];
    assert r.prod.e[..k + 1] == r.prod.e[..k] + [r.prod.e[k]];
  }

  lemma PublishKeeps(r: Ring)
    requires Inv(r) && Enabled(r, Publish)
    ensures Inv(Apply(r, Publish))
  {
    var slot := r.prod.pos % SLOTS;
    assert r.slots[slot] == r.slots[slot][..8] == r.prod.e[..8] == r.prod.e;
  }

  lemma ClaimKeeps(r: Ring, e: Entry)
    requires Inv(r) && Enabled(r, Claim(e)) && InBounds(r, Claim(e))
    ensures Inv(Apply(r, Claim(e)))
  {
    var r' := Apply(r, Claim(e));
    assert r'.log[..r.readPos] == r.log[..r.readPos];
    if r.cons.Reading? {
      var c := r.cons;
      assert r'.log[c.rpos..c.rpos + |c.buf|] == r.log[c.rpos..c.rpos + |c.buf|];
    }
  }

  lemma ReadKeeps(r: Ring)
    requires Inv(r) && Enabled(r, ReadWord)
    ensures Inv(Apply(r, ReadWord))
  {
    var c := r.cons;
    var p, k := c.rpos + |c.buf|, |c.part|;
    assert r.slots[p % SLOTS] == r.log[p];
    var part := c.part + [r.log[p][k]];
    assert part == r.log[p][..k + 1];
    if k + 1 == WORDS {
      assert part == r.log[p];
      assert c.buf + [part] == r.log[c.rpos..p + 1];
    }
  }

  lemma StoreKeeps(r: Ring)
    requires Inv(r) && Enabled(r, StoreRead)
    ensures Inv(Apply(r, StoreRead))
  {
    var c := r.cons;
    assert r.log[..c.rpos] + r.log[c.rpos..c.rpos + c.avail] == r.log[..c.rpos + c.avail];
  }

  lemma StepKeeps(r: Ring, step: Step)
    requires Inv(r) && Enabled(r, step) && InBounds(r, step)
    ensures Inv(Apply(r, step))
  {
    match step
    case Claim(e) => ClaimKeeps(r, e);
    case CopyWord => CopyKeeps(r);
    case Publish => PublishKeeps(r);
    case LoadRead(_) =>
    case LoadCommitted =>
    case ReadWord => ReadKeeps(r);
    case StoreRead => StoreKeeps(r);
  }

  // ---------------------------------------------------------------- runs

  ghost predicate IsRun(r: Ring, steps: seq<Step>)
    requires Shaped(r)
    decreases |steps|
  {
    steps == [] || (Enabled(r, steps[0]) && IsRun(Apply(r, steps[0]), steps[1..]))
  }

  ghost predicate NeverLapped(r: Ring, steps: seq<Step>)
    requires Shaped(r) && IsRun(r, steps)
    decreases |steps|
  {
    steps == [] || (InBounds(r, steps[0]) && NeverLapped(Apply(r, steps[0]), steps[1..]))
  }

  function Final(r: Ring, steps: seq<Step>): (r': Ring)
    requires Shaped(r)
    ensures Shaped(r')
    decreases |steps|
  {
    if steps == [] || !Enabled(r, steps[0]) then r else Final(Apply(r, steps[0]), steps[1..])
  }

  lemma {:induction false} RunKeeps(r: Ring, steps: seq<Step>)
    requires Inv(r) && Shaped(r) && IsRun(r, steps) && NeverLapped(r, steps)
    ensures Inv(Final(r, steps))
    decreases |steps|
  {
    hide Inv, Apply;
    if steps != [] {
      StepKeeps(r, steps[0]);
      RunKeeps(Apply(r, steps[0]), steps[1..]);
    }
  }

  /** In every interleaving in which the ring is not lapped, the results of all reads together are the
      published log up to the read position: nothing torn, lost, repeated or reordered. */
  lemma ReadsAreLogPrefix(steps: seq<Step>)
    requires IsRun(Init(), steps) && NeverLapped(Init(), steps)
    ensures var r := Final(Init(), steps);
            && |r.out| == r.readPos <= r.committed <= |r.log|
            && r.out == r.log[..r.readPos]
            && forall p: nat | r.readPos <= p < r.committed :: r.slots[p % SLOTS] == r.log[p]
  {
    RunKeeps(Init(), steps);
  }
}
