/**
 The trace ring of kernel/trace.c without the bound: the producer never waits for the reader, so it may lap it.
 For every run, which entry a word that is read came from, and what a lapped read returns.
 */
module TraceLaps {
  import opened TraceRing

  // ---------------------------------------------------------------- where a word comes from

  /** How many entries have had word `k` stored. */
  function Written(r: Ring, k: nat): nat
  {
    if r.prod.Copying? && r.prod.k <= k then r.committed else r.writePos
  }

  ghost predicate WordAt(r: Ring, p: nat, k: nat)
    requires Shaped(r) && p < |r.log| && k < WORDS
  {
    r.slots[p % SLOTS][k] == r.log[p][k]
  }

  ghost predicate Writer(r: Ring)
  {
    && |r.log| == r.writePos && r.readPos <= r.committed
    && (if r.prod.Quiet? then r.writePos == r.committed
        else r.writePos == r.committed + 1 && r.prod.pos == r.committed && r.prod.e == r.log[r.committed]
             && r.prod.k <= WORDS)
  }

  /** Each slot holds, word by word, the latest entry that reached it. */
  ghost predicate Latests(r: Ring)
    requires Shaped(r) && Writer(r)
  {
    forall p: nat, k: nat | k < WORDS && p < Written(r, k) <= p + SLOTS :: WordAt(r, p, k)
  }

  /** The word `w` is word `k` of an entry logged at position `p` or a whole number of laps later. */
  ghost predicate FromLap(log: seq<Entry>, p: nat, k: nat, w: nat)
    requires k < WORDS
  {
    exists q: nat :: p <= q < |log| && q % SLOTS == p % SLOTS && log[q][k] == w
  }

  ghost predicate WordsFrom(log: seq<Entry>, p: nat, words: seq<nat>)
    requires |words| <= WORDS
  {
    forall k: nat | k < |words| :: FromLap(log, p, k, words[k])
  }

  ghost predicate EntriesFrom(log: seq<Entry>, p: nat, es: seq<Entry>)
  {
    forall i: nat | i < |es| :: WordsFrom(log, p + i, es[i])
  }

  ghost predicate Reader(r: Ring)
  {
    && |r.out| == r.readPos && EntriesFrom(r.log, 0, r.out)
    && match r.cons
       case Away => true
       case AtRead(rpos, _) => rpos == r.readPos
       case Reading(rpos, avail, buf, part) =>
         && rpos == r.readPos && rpos + avail <= r.committed && |buf| <= avail && |part| < WORDS
         && (|buf| == avail ==> part == [])
         && EntriesFrom(r.log, rpos, buf) && WordsFrom(r.log, rpos + |buf|, part)
  }

  ghost predicate Any(r: Ring) { Shaped(r) && Writer(r) && Latests(r) && Reader(r) }

  /** The last of the positions `p`, `p + SLOTS`, `p + 2 * SLOTS`, … that lies below `w`. */
  function Latest(p: nat, w: nat): (q: nat)
    requires p < w
    ensures p <= q < w <= q + SLOTS && q % SLOTS == p % SLOTS && (q == p <==> w <= p + SLOTS)
    decreases w - p
  {
    if w <= p + SLOTS then p else Latest(p + SLOTS, w)
  }

  /** In any state of any run, the word a reader takes is that of the latest entry stored in its slot: the entry
      it asked for exactly when that word has not been overwritten. */
  lemma WordRead(r: Ring)
    requires Any(r) && Enabled(r, ReadWord)
    ensures var p, k := r.cons.rpos + |r.cons.buf|, |r.cons.part|;
            && p < Written(r, k)
            && var q := Latest(p, Written(r, k));
               q < |r.log| && r.slots[p % SLOTS][k] == r.log[q][k] && (q == p <==> Written(r, k) <= p + SLOTS)
  {
    var p, k := r.cons.rpos + |r.cons.buf|, |r.cons.part|;
    assert WordAt(r, Latest(p, Written(r, k)), k);
  }

  // ---------------------------------------------------------------- every step

  lemma FromGrows(log: seq<Entry>, e: Entry, p: nat, k: nat, w: nat)
    requires k < WORDS && FromLap(log, p, k, w)
    ensures FromLap(log + [e], p, k, w)
  {
    var q: nat :| p <= q < |log| && q % SLOTS == p % SLOTS && log[q][k] == w;
    assert (log + [e])[q] == log[q];
  }

  lemma WordsGrow(log: seq<Entry>, e: Entry, p: nat, words: seq<nat>)
    requires |words| <= WORDS && WordsFrom(log, p, words)
    ensures WordsFrom(log + [e], p, words)
  {
    hide FromLap;
    forall k: nat | k < |words|
      ensures FromLap(log + [e], p, k, words[k])
    {
      FromGrows(log, e, p, k, words[k]);
    }
  }

  lemma EntriesGrow(log: seq<Entry>, e: Entry, p: nat, es: seq<Entry>)
    requires EntriesFrom(log, p, es)
    ensures EntriesFrom(log + [e], p, es)
  {
    hide WordsFrom;
    forall i: nat | i < |es|
      ensures WordsFrom(log + [e], p + i, es[i])
    {
      WordsGrow(log, e, p + i, es[i]);
    }
  }

  lemma ClaimAny(r: Ring, e: Entry)
    requires Any(r) && Enabled(r, Claim(e))
    ensures Any(Apply(r, Claim(e)))
  {
    hide EntriesFrom, WordsFrom;
    var r' := Apply(r, Claim(e));
    forall p: nat, k: nat | k < WORDS && p < Written(r', k) <= p + SLOTS
      ensures WordAt(r', p, k)
    {
      assert WordAt(r, p, k);
    }
    EntriesGrow(r.log, e, 0, r.out);
    if r.cons.Reading? {
      EntriesGrow(r.log, e, r.cons.rpos, r.cons.buf);
      WordsGrow(r.log, e, r.cons.rpos + |r.cons.buf|, r.cons.part);
    }
  }

  lemma CopyAny(r: Ring)
    requires Any(r) && Enabled(r, CopyWord)
    ensures Any(Apply(r, CopyWord))
  {
    hide EntriesFrom, WordsFrom;
    var r' := Apply(r, CopyWord);
    forall p: nat, k: nat | k < WORDS && p < Written(r', k) <= p + SLOTS
      ensures WordAt(r', p, k)
    {
      if k != r.prod.k {
        assert WordAt(r, p, k);
      } else if p != r.committed {
        OtherSlot(p, r.committed);
        assert WordAt(r, p, k);
      }
    }
  }

  lemma PublishAny(r: Ring)
    requires Any(r) && Enabled(r, Publish)
    ensures Any(Apply(r, Publish))
  {
    hide EntriesFrom, WordsFrom;
    var r' := Apply(r, Publish);
    forall p: nat, k: nat | k < WORDS && p < Written(r', k) <= p + SLOTS
      ensures WordAt(r', p, k)
    {
      assert WordAt(r, p, k);
    }
  }

  lemma ReadAny(r: Ring)
    requires Any(r) && Enabled(r, ReadWord)
    ensures Any(Apply(r, ReadWord))
  {
    hide EntriesFrom, WordsFrom, FromLap;
    var r', c := Apply(r, ReadWord), r.cons;
    var p, k := c.rpos + |c.buf|, |c.part|;
    WordRead(r);
    var w := r.slots[p % SLOTS][k];
    FromAt(r.log, p, k, Latest(p, Written(r, k)));
    WordsAdd(r.log, p, c.part, w);
    if k + 1 == WORDS {
      EntriesAdd(r.log, c.rpos, c.buf, c.part + [w]);
      NoWords(r.log, p + 1);
    }
    SlotsSame(r, r');
  }

  lemma SlotsSame(r: Ring, r': Ring)
    requires Shaped(r) && Writer(r) && Latests(r) && r' == r.(cons := r'.cons)
    ensures Latests(r')
  {
    forall p: nat, k: nat | k < WORDS && p < Written(r', k) <= p + SLOTS
      ensures WordAt(r', p, k)
    {
      assert WordAt(r, p, k);
    }
  }

  lemma FromAt(log: seq<Entry>, p: nat, k: nat, q: nat)
    requires k < WORDS && p <= q < |log| && q % SLOTS == p % SLOTS
    ensures FromLap(log, p, k, log[q][k])
  {
  }

  lemma WordsAdd(log: seq<Entry>, p: nat, words: seq<nat>, w: nat)
    requires |words| < WORDS && WordsFrom(log, p, words) && FromLap(log, p, |words|, w)
    ensures WordsFrom(log, p, words + [w])
  {
    hide FromLap;
  }

  lemma NoWords(log: seq<Entry>, p: nat)
    ensures WordsFrom(log, p, [])
  {
  }

  lemma EntriesAdd(log: seq<Entry>, p: nat, es: seq<Entry>, e: Entry)
    requires EntriesFrom(log, p, es) && WordsFrom(log, p + |es|, e)
    ensures EntriesFrom(log, p, es + [e])
  {
    hide WordsFrom;
  }

  lemma EntriesJoin(log: seq<Entry>, p: nat, xs: seq<Entry>, ys: seq<Entry>)
    requires EntriesFrom(log, p, xs) && EntriesFrom(log, p + |xs|, ys)
    ensures EntriesFrom(log, p, xs + ys)
  {
    hide WordsFrom;
    forall i: nat | i < |xs + ys|
      ensures WordsFrom(log, p + i, (xs + ys)[i])
    {
      if i >= |xs| {
        assert (xs + ys)[i] == ys[i - |xs|] && p + i == p + |xs| + (i - |xs|);
      }
    }
  }

  lemma StoreAny(r: Ring)
    requires Any(r) && Enabled(r, StoreRead)
    ensures Any(Apply(r, StoreRead))
  {
    hide EntriesFrom, WordsFrom, WordAt;
    var r' := Apply(r, StoreRead);
    EntriesJoin(r.log, 0, r.out, r.cons.buf);
    forall p: nat, k: nat | k < WORDS && p < Written(r', k) <= p + SLOTS
      ensures WordAt(r', p, k)
    {
      assert WordAt(r, p, k);
      SameWord(r, r', p, k);
    }
  }

  lemma SameWord(r: Ring, r': Ring, p: nat, k: nat)
    requires Shaped(r) && Shaped(r') && p < |r.log| && k < WORDS && WordAt(r, p, k) && r'.slots == r.slots
             && r'.log == r.log
    ensures WordAt(r', p, k)
  {
  }

  lemma LoadAny(r: Ring, step: Step)
    requires Any(r) && Enabled(r, step) && (step.LoadRead? || step.LoadCommitted?)
    ensures Any(Apply(r, step))
  {
    hide EntriesFrom, WordsFrom, Latests;
    var r' := Apply(r, step);
    SlotsSame(r, r');
    if step.LoadCommitted? {
      NoWords(r.log, r.cons.rpos);
      NoEntries(r.log, r.cons.rpos);
    }
  }

  lemma NoEntries(log: seq<Entry>, p: nat)
    ensures EntriesFrom(log, p, [])
  {
  }

  lemma StepAny(r: Ring, step: Step)
    requires Any(r) && Enabled(r, step)
    ensures Any(Apply(r, step))
  {
    hide Any, Apply;
    match step
    case Claim(e) => ClaimAny(r, e);
    case CopyWord => CopyAny(r);
    case Publish => PublishAny(r);
    case LoadRead(_) => LoadAny(r, step);
    case LoadCommitted => LoadAny(r, step);
    case ReadWord => ReadAny(r);
    case StoreRead => StoreAny(r);
  }

  lemma {:induction false} RunAny(r: Ring, steps: seq<Step>)
    requires Any(r) && Shaped(r) && IsRun(r, steps)
    ensures Any(Final(r, steps))
    decreases |steps|
  {
    hide Any, Apply;
    if steps != [] {
      StepAny(r, steps[0]);
      RunAny(Apply(r, steps[0]), steps[1..]);
    }
  }

  lemma InitAny()
    ensures Any(Init())
  {
  }

  /** In every run, lapped or not: word `k` of the entry a read returned for position `p` is word `k` of the entry
      logged at `p` or a whole number of laps later, never older, blank or from another slot; and the next word
      read will come from the latest entry stored in its slot. */
  lemma ReadsAreRecent(steps: seq<Step>)
    requires IsRun(Init(), steps)
    ensures var r := Final(Init(), steps);
            && |r.out| == r.readPos <= r.committed <= |r.log|
            && (forall p: nat, k: nat | p < |r.out| && k < WORDS :: FromLap(r.log, p, k, r.out[p][k]))
            && (Enabled(r, ReadWord) ==>
                  var p, k := r.cons.rpos + |r.cons.buf|, |r.cons.part|;
                  && p < Written(r, k) <= |r.log|
                  && r.slots[p % SLOTS][k] == r.log[Latest(p, Written(r, k))][k]
                  && (Latest(p, Written(r, k)) == p <==> Written(r, k) <= p + SLOTS))
  {
    hide FromLap, IsRun, Final, Latest;
    InitAny();
    RunAny(Init(), steps);
    var r := Final(Init(), steps);
    if Enabled(r, ReadWord) { WordRead(r); }
    forall p: nat, k: nat | p < |r.out| && k < WORDS
      ensures FromLap(r.log, p, k, r.out[p][k])
    {
      assert WordsFrom(r.log, 0 + p, r.out[p]);
    }
  }

  // ---------------------------------------------------------------- runs that lap the reader

  lemma {:induction false} RunConcat(r: Ring, xs: seq<Step>, ys: seq<Step>)
    requires Shaped(r) && IsRun(r, xs) && IsRun(Final(r, xs), ys)
    ensures IsRun(r, xs + ys) && Final(r, xs + ys) == Final(Final(r, xs), ys)
    decreases |xs|
  {
    hide Apply;
    if xs == [] {
      assert xs + ys == ys;
    } else {
      RunConcat(Apply(r, xs[0]), xs[1..], ys);
      assert (xs + ys)[1..] == xs[1..] + ys;
    }
  }

  lemma RunOne(r: Ring, step: Step)
    requires Shaped(r) && Enabled(r, step)
    ensures IsRun(r, [step]) && Final(r, [step]) == Apply(r, step)
  {
    assert [step][1..] == [];
  }

  lemma RunNone(r: Ring)
    requires Shaped(r)
    ensures IsRun(r, []) && Final(r, []) == r
  {
  }

  /** The rest of a copy, uninterrupted. */
  lemma {:induction false} CopyRest(r: Ring) returns (steps: seq<Step>)
    requires Shaped(r) && r.prod.Copying? && r.prod.k <= WORDS
    requires r.slots[r.prod.pos % SLOTS][..r.prod.k] == r.prod.e[..r.prod.k]
    ensures IsRun(r, steps)
    ensures Final(r, steps) == r.(slots := r.slots[r.prod.pos % SLOTS := r.prod.e], prod := r.prod.(k := WORDS))
    decreases WORDS - r.prod.k
  {
    hide IsRun, Final;
    var slot, k := r.prod.pos % SLOTS, r.prod.k;
    if k == WORDS {
      steps := [];
      RunNone(r);
      assert r.slots[slot] == r.slots[slot][..8] == r.prod.e;
      assert r.slots[slot := r.prod.e] == r.slots;
    } else {
      var r1 := Apply(r, CopyWord);
      assert r1.slots[slot][..k + 1] == r.slots[slot][..k] + [r.prod.e[k]] == r.prod.e[..k + 1];
      var rest := CopyRest(r1);
      assert r1.slots[slot := r.prod.e] == r.slots[slot := r.prod.e];
      RunOne(r, CopyWord);
      RunConcat(r, [CopyWord], rest);
      steps := [CopyWord] + rest;
    }
  }

  lemma PublishOne(r: Ring, e: Entry) returns (steps: seq<Step>)
    requires Shaped(r) && r.prod.Quiet?
    ensures IsRun(r, steps)
    ensures Final(r, steps) == r.(writePos := r.writePos + 1, committed := r.committed + 1, log := r.log + [e],
                                  slots := r.slots[r.writePos % SLOTS := e])
  {
    hide IsRun, Final;
    var r1 := Apply(r, Claim(e));
    RunOne(r, Claim(e));
    var copy := CopyRest(r1);
    var r2 := Final(r1, copy);
    RunOne(r2, Publish);
    RunConcat(r1, copy, [Publish]);
    RunConcat(r, [Claim(e)], copy + [Publish]);
    steps := [Claim(e)] + (copy + [Publish]);
  }

  /** Publishing `es` with no read in between. */
  lemma {:induction false} PublishAll(es: seq<Entry>) returns (steps: seq<Step>)
    ensures IsRun(Init(), steps)
    ensures var r := Final(Init(), steps);
            && r.prod.Quiet? && r.cons.Away? && r.readPos == 0 && r.out == []
            && r.committed == r.writePos == |es| && r.log == es
  {
    hide IsRun, Final, Blanks;
    if es == [] {
      steps := [];
      RunNone(Init());
    } else {
      var n := |es| - 1;
      var first := PublishAll(es[..n]);
      var r := Final(Init(), first);
      var last := PublishOne(r, es[n]);
      RunConcat(Init(), first, last);
      steps := first + last;
      assert es[..n] + [es[n]] == es;
    }
  }

  /** With nothing being copied a whole slot is the latest entry. */
  lemma WholeSlot(r: Ring)
    requires Any(r) && r.prod.Quiet? && r.committed > 0
    ensures r.slots[0] == r.log[Latest(0, r.committed)]
  {
    var q := Latest(0, r.committed);
    forall k: nat | k < WORDS
      ensures r.slots[0][k] == r.log[q][k]
    {
      assert WordAt(r, q, k);
    }
  }

  lemma {:induction false} ReadRest(r: Ring) returns (steps: seq<Step>)
    requires Shaped(r) && r.cons.Reading? && r.cons.avail == 1 && r.cons.buf == [] && |r.cons.part| < WORDS
    requires r.cons.part == r.slots[r.cons.rpos % SLOTS][..|r.cons.part|]
    ensures IsRun(r, steps)
    ensures Final(r, steps) == r.(cons := Reading(r.cons.rpos, 1, [r.slots[r.cons.rpos % SLOTS]], []))
    decreases WORDS - |r.cons.part|
  {
    hide IsRun, Final;
    var slot, k := r.cons.rpos % SLOTS, |r.cons.part|;
    var r1 := Apply(r, ReadWord);
    assert r.cons.part + [r.slots[slot][k]] == r.slots[slot][..k + 1];
    RunOne(r, ReadWord);
    if k + 1 == WORDS {
      assert r.cons.part + [r.slots[slot][k]] == r.slots[slot];
      assert r1.cons.buf == [r.slots[slot]];
      steps := [ReadWord];
    } else {
      var rest := ReadRest(r1);
      RunConcat(r, [ReadWord], rest);
      steps := [ReadWord] + rest;
    }
  }

  lemma ReadOne(r: Ring) returns (steps: seq<Step>)
    requires Shaped(r) && r.cons.Away? && r.readPos < r.committed
    ensures IsRun(r, steps) && Final(r, steps).out == r.out + [r.slots[r.readPos % SLOTS]]
            && Final(r, steps).log == r.log
  {
    hide IsRun, Final;
    var r1 := Apply(r, LoadRead(1));
    var r2 := Apply(r1, LoadCommitted);
    RunOne(r, LoadRead(1));
    RunOne(r1, LoadCommitted);
    var words := ReadRest(r2);
    var r3 := Final(r2, words);
    RunOne(r3, StoreRead);
    RunConcat(r2, words, [StoreRead]);
    RunConcat(r1, [LoadCommitted], words + [StoreRead]);
    RunConcat(r, [LoadRead(1)], [LoadCommitted] + (words + [StoreRead]));
    steps := [LoadRead(1)] + ([LoadCommitted] + (words + [StoreRead]));
  }

  /** Publishing `es` with no read in between and then reading one entry returns the entry that started the
      latest lap.  For pairwise distinct entries the result is a prefix of the log exactly when the ring was
      not lapped. */
  lemma LappedReadIff(es: seq<Entry>) returns (steps: seq<Step>)
    requires es != [] && forall i, j | 0 <= i < j < |es| :: es[i] != es[j]
    ensures IsRun(Init(), steps)
    ensures var r := Final(Init(), steps);
            && r.log == es && r.out == [es[Latest(0, |es|)]]
            && (r.out == r.log[..1] <==> |es| <= SLOTS)
  {
    hide IsRun, Final, Any;
    var writes := PublishAll(es);
    var r := Final(Init(), writes);
    InitAny();
    RunAny(Init(), writes);
    WholeSlot(r);
    var tail := ReadOne(r);
    RunConcat(Init(), writes, tail);
    steps := writes + tail;
    assert es[..1] == [es[0]];
  }

  /** The first `k` words of a copy, uninterrupted. */
  lemma {:induction false} CopySome(r: Ring, k: nat) returns (steps: seq<Step>)
    requires Shaped(r) && r.prod.Copying? && r.prod.k == 0 && k <= WORDS
    ensures IsRun(r, steps)
    ensures var slot := r.prod.pos % SLOTS;
            Final(r, steps) == r.(slots := r.slots[slot := r.prod.e[..k] + r.slots[slot][k..]], prod := r.prod.(k := k))
    decreases k
  {
    hide IsRun, Final;
    var slot := r.prod.pos % SLOTS;
    if k == 0 {
      steps := [];
      RunNone(r);
      assert r.prod.e[..0] + r.slots[slot][0..] == r.slots[slot];
      assert r.slots[slot := r.slots[slot]] == r.slots;
    } else {
      var first := CopySome(r, k - 1);
      var r1 := Final(r, first);
      RunOne(r1, CopyWord);
      RunConcat(r, first, [CopyWord]);
      steps := first + [CopyWord];
      assert (r.prod.e[..k - 1] + r.slots[slot][k - 1..])[k - 1 := r.prod.e[k - 1]]
          == r.prod.e[..k] + r.slots[slot][k..];
    }
  }

  /** A torn entry: with a full ring of unread entries, a writer that has stored `k` words of the next entry makes
      a read return those `k` words followed by the rest of the oldest entry, which need not be in the log. */
  lemma TornRead(es: seq<Entry>, e: Entry, k: nat) returns (steps: seq<Step>)
    requires |es| == SLOTS && k <= WORDS
    ensures IsRun(Init(), steps)
    ensures var r := Final(Init(), steps);
            && r.log == es + [e] && r.out == [e[..k] + es[0][k..]]
            && (0 < k < WORDS && e[7] != es[0][7] && (forall x | x in es :: x[0] != e[0]) ==> r.out[0] !in r.log)
  {
    hide IsRun, Final, Any;
    var writes := PublishAll(es);
    var r := Final(Init(), writes);
    InitAny();
    RunAny(Init(), writes);
    WholeSlot(r);
    RunOne(r, Claim(e));
    var r1 := Apply(r, Claim(e));
    var copy := CopySome(r1, k);
    var r2 := Final(r1, copy);
    var read := ReadOne(r2);
    RunConcat(r1, copy, read);
    RunConcat(r, [Claim(e)], copy + read);
    RunConcat(Init(), writes, [Claim(e)] + (copy + read));
    steps := writes + ([Claim(e)] + (copy + read));
  }
}
