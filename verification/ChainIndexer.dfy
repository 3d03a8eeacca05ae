/** The chain indexer: sections of the canonical chain are processed in the background, without the
    lock, while heads move and reorganise (core/chain_indexer.go). Each method is one step taken
    under the lock, or one header read in between. */
module Indexer {
  import opened Collections
  import opened Chain

  /** b comes k generations after a, counting from before genesis when a is absent. */
  ghost predicate Generations(a: Option<Block>, b: Block, k: nat) {
    match a
    case None => Number(b) + 1 == k
    case Some(a') => IsAncestor(a', b) && Number(b) == Number(a') + k
  }

  lemma NextGeneration(a: Option<Block>, last: Option<Block>, b: Block, k: nat)
    requires if k == 0 then last == a else last.Some? && Generations(a, last.value, k)
    requires ParentOf(b) == last
    ensures Generations(a, b, k + 1) && Number(b) == if last.Some? then Number(last.value) + 1 else 0
  {
    if last.Some? {
      AtSelf(last.value);
    }
  }

  /** The background job: idle, part way through a section, finished with its last hash, or failed. */
  datatype Job =
    | Idle
    | Running(section: nat, oldHead: Option<Block>, next: nat, last: Option<Block>)
    | Done(section: nat, oldHead: Option<Block>, newHead: Block)
    | Broken(section: nat, oldHead: Option<Block>)

  datatype Step =
    | Moves(canon: map<nat, Block>, headers: set<Block>)
    | Head(head: nat, reorg: bool)
    | Checkpoint(section: nat, shead: Block)
    | Query
    | Work(ok: bool)
    | Reset

  /** Everything an indexer remembers. */
  datatype State = State(canon: map<nat, Block>, headers: set<Block>, stored: nat, known: nat, cascaded: nat,
                         heads: map<nat, Block>, checkpoint: nat, checkpointHead: Option<Block>, work: Job)

  /** The state with the first n sections only. */
  ghost function Keep(v: State, n: nat): State {
    v.(stored := n, heads := map s | s in v.heads && s < n :: v.heads[s])
  }

  function Lookup(m: map<nat, Block>, n: nat): Option<Block> {
    if n in m then Some(m[n]) else None
  }

  ghost function Verified(v: State, size: nat): State
    requires size > 0
  {
    Keep(v, Trusted(v.heads, v.stored, v.checkpoint, size, v.canon))
  }

  /** Falling back to a common block. */
  ghost function Reverted(v: State, head: nat, size: nat): State
    requires size > 0
  {
    var whole := Quotient(head + 1, size);
    var kept := if whole < v.checkpoint then 0 else whole;
    Keep(v, Lesser(v.stored, if whole < v.checkpoint then v.checkpoint else whole)).(known := Lesser(v.known, kept),
      cascaded := Lesser(v.cascaded, Span(kept, size)))
  }

  /** A new head without a reorganisation: whole confirmed sections become known, from the checkpoint
      on, unless the chain contradicts it. */
  ghost function Notified(v: State, head: nat, size: nat, confirms: nat): State
    requires size > 0
  {
    if head < confirms then v else
    var sections := Quotient(head + 1 - confirms, size);
    if sections <= v.known || sections < v.checkpoint then v
    else if v.known < v.checkpoint && Lookup(v.canon, End(v.checkpoint - 1, size)) != v.checkpointHead then v
    else v.(known := sections)
  }

  ghost function Pinned(v: State, section: nat, head: Block): State {
    if section < v.stored || section < v.checkpoint then v
    else Keep(v.(heads := v.heads[section := head]), section + 1).(checkpoint := section + 1, checkpointHead := Some(head))
  }

  ghost function Begun(v: State, size: nat): State
    requires size > 0
  {
    if v.known <= v.stored then v else
    var w := Verified(v, size);
    w.(work := Running(w.stored, HeadAt(w.heads, w.stored), w.stored * size, HeadAt(w.heads, w.stored)))
  }

  ghost function Processed(v: State, ok: bool, size: nat): State
    requires v.work.Running?
  {
    var w := v.work;
    if w.next == Span(w.section + 1, size) then
      v.(work := if ok && w.last.Some? then Done(w.section, w.oldHead, w.last.value) else Broken(w.section, w.oldHead))
    else if ok && w.next in v.canon && v.canon[w.next] in v.headers && Number(v.canon[w.next]) == w.next && ParentOf(v.canon[w.next]) == w.last then
      v.(work := Running(w.section, w.oldHead, w.next + 1, Some(v.canon[w.next])))
    else v.(work := Broken(w.section, w.oldHead))
  }

  ghost function Finished(v: State, size: nat): State
    requires size > 0 && (v.work.Done? || v.work.Broken?)
  {
    var w := v.work;
    if w.Done? && (w.section == 0 || w.oldHead == Lookup(v.heads, w.section - 1)) then
      Keep(v.(heads := v.heads[w.section := w.newHead]), w.section + 1).(cascaded := End(w.section, size), work := Idle)
    else
      var kept := Verified(v, size);
      kept.(known := kept.stored, work := Idle)
  }

  /** One step, whoever takes it. */
  ghost function Stepped(v: State, step: Step, size: nat, confirms: nat): State
    requires size > 0
  {
    match step
    case Moves(canon, headers) => v.(canon := canon, headers := headers)
    case Head(head, reorg) => if reorg then Reverted(v, head, size) else Notified(v, head, size, confirms)
    case Checkpoint(section, shead) => Pinned(v, section, shead)
    case Query => Verified(v, size)
    case Work(ok) => if v.work.Idle? then Begun(v, size) else if v.work.Running? then Processed(v, ok, size) else Finished(v, size)
    case Reset => if v.work.Running? then Keep(v, 0).(work := Broken(v.work.section, v.work.oldHead)) else v
  }

  ghost function Played(v: State, steps: seq<Step>, size: nat, confirms: nat): State
    requires size > 0
  {
    if steps == [] then v else Stepped(Played(v, steps[..|steps| - 1], size, confirms), steps[|steps| - 1], size, confirms)
  }

  /** Exactly the sections below the checkpoint or ending at or below the common block stay. */
  lemma RevertedFacts(v: State, head: nat, size: nat)
    requires size > 0
    ensures var w := Reverted(v, head, size);
            && w.stored <= v.stored && w.known <= v.known && Span(w.known, size) <= head + 1
            && forall s: nat :: s < v.stored ==> (s < w.stored <==> s < v.checkpoint || End(s, size) <= head)
  {
    hide Span, End, Keep;
    var w := Reverted(v, head, size);
    assert w.known <= Quotient(head + 1, size);
    SpanMonotone(w.known, Quotient(head + 1, size), size);
    assert w.stored == Lesser(v.stored, if Quotient(head + 1, size) < v.checkpoint then v.checkpoint else Quotient(head + 1, size)) by {
      KeepStored(v);
    }
    forall s: nat | s < v.stored ensures s < w.stored <==> s < v.checkpoint || End(s, size) <= head {
      Whole(s, head, size);
    }
  }

  lemma KeepStored(v: State)
    ensures forall n: nat :: Keep(v, n).stored == n && Keep(v, n).known == v.known
  {
  }

  lemma KeepIs(v: State, heads: map<nat, Block>, n: nat)
    requires HeadsBelow(v.heads, heads, n)
    ensures Keep(v, n) == v.(stored := n, heads := heads)
  {
  }

  ghost predicate WorkOk(work: Job, size: nat) {
    match work
    case Idle => true
    case Running(section, oldHead, next, last) =>
      && (oldHead == None <==> section == 0)
      && section * size <= next <= (section + 1) * size
      && Reached(oldHead, last, next, next - section * size)
    case Done(section, oldHead, newHead) =>
      (oldHead == None <==> section == 0) && Generations(oldHead, newHead, size)
    case Broken(section, oldHead) => oldHead == None <==> section == 0
  }

  ghost predicate Reached(oldHead: Option<Block>, last: Option<Block>, next: nat, k: nat) {
    if k == 0 then last == oldHead
    else last.Some? && Generations(oldHead, last.value, k) && Number(last.value) == next - 1
  }

  /** The stored heads: none at or above stored, none missing from the checkpoint up, and above the
      checkpoint each exactly one section after the one before. */
  ghost predicate HeadsOk(heads: map<nat, Block>, stored: nat, checkpoint: nat, size: nat) {
    && (forall s :: s in heads ==> s < stored)
    && (forall s: nat :: s < stored && (s + 1 >= checkpoint || s + 1 == stored) ==> s in heads)
    && (forall s: nat :: s in heads && s >= checkpoint ==> Generations(HeadAt(heads, s), heads[s], size))
  }

  /** The head of the section before s. */
  function HeadAt(heads: map<nat, Block>, s: nat): Option<Block> {
    if s > 0 && s - 1 in heads then Some(heads[s - 1]) else None
  }

  /** Exactly the heads below a section are left. */
  ghost predicate HeadsBelow(heads: map<nat, Block>, heads': map<nat, Block>, sections: nat) {
    && (forall s :: s in heads' <==> s in heads && s < sections)
    && forall s :: s in heads' ==> heads'[s] == heads[s]
  }

  lemma LastPresent(heads: map<nat, Block>, stored: nat, checkpoint: nat, size: nat)
    requires HeadsOk(heads, stored, checkpoint, size)
    ensures stored > 0 ==> stored - 1 in heads
    ensures forall s :: s in heads ==> s < stored
  {
  }

  lemma Cut(heads: map<nat, Block>, stored: nat, checkpoint: nat, size: nat, heads': map<nat, Block>, stored': nat)
    requires HeadsOk(heads, stored, checkpoint, size)
    requires stored' == 0 || checkpoint <= stored' <= stored
    requires forall s :: s in heads' <==> s in heads && s < stored'
    requires forall s :: s in heads' ==> heads'[s] == heads[s]
    ensures HeadsOk(heads', stored', checkpoint, size)
  {
    forall s: nat | s in heads' && s >= checkpoint ensures Generations(HeadAt(heads', s), heads'[s], size) {
      assert HeadAt(heads', s) == HeadAt(heads, s);
    }
  }

  /** Adding a section's head on top of an unchanged previous head. */
  lemma Append(heads: map<nat, Block>, stored: nat, checkpoint: nat, size: nat, section: nat,
               oldHead: Option<Block>, newHead: Block, heads': map<nat, Block>)
    requires HeadsOk(heads, stored, checkpoint, size)
    requires oldHead == None <==> section == 0
    requires oldHead == HeadAt(heads, section)
    requires Generations(oldHead, newHead, size)
    requires forall s :: s in heads' <==> s == section || (s in heads && s < section)
    requires forall s :: s in heads' ==> heads'[s] == if s == section then newHead else heads[s]
    ensures HeadsOk(heads', section + 1, checkpoint, size)
  {
    forall s: nat | s in heads' && s >= checkpoint ensures Generations(HeadAt(heads', s), heads'[s], size) {
      assert HeadAt(heads', s) == HeadAt(heads, s);
    }
    if section > 0 {
      assert section - 1 in heads;
    }
  }

  /** The height of the last block of a section. */
  function End(s: nat, size: nat): nat
    requires size > 0
  {
    Positive(s + 1, size);
    (s + 1) * size - 1
  }

  lemma Positive(sections: nat, size: nat)
    requires sections > 0 && size > 0
    ensures sections * size >= size
  {
  }

  /** From the checkpoint up, every stored head is the canonical block ending its section. */
  ghost predicate Vouched(heads: map<nat, Block>, stored: nat, checkpoint: nat, size: nat, canon: map<nat, Block>)
    requires size > 0
  {
    forall s: nat :: s < stored && s + 1 >= checkpoint ==> s in heads && CanonicalHead(heads, canon, size, s)
  }

  ghost predicate CanonicalHead(heads: map<nat, Block>, canon: map<nat, Block>, size: nat, s: nat)
    requires size > 0
  {
    s in heads && End(s, size) in canon && canon[End(s, size)] == heads[s]
  }

  /** One canonical last head vouches for all the heads below it. */
  lemma Vouch(heads: map<nat, Block>, stored: nat, checkpoint: nat, size: nat, canon: map<nat, Block>)
    requires size > 0 && HeadsOk(heads, stored, checkpoint, size) && Linked(canon)
    requires stored > checkpoint && CanonicalHead(heads, canon, size, stored - 1)
    ensures Vouched(heads, stored, checkpoint, size, canon)
  {
    forall s: nat | s < stored && s + 1 >= checkpoint ensures CanonicalHead(heads, canon, size, s) {
      VouchDown(heads, stored, checkpoint, size, canon, s);
    }
  }

  lemma {:induction false} VouchDown(heads: map<nat, Block>, stored: nat, checkpoint: nat, size: nat, canon: map<nat, Block>, s: nat)
    requires size > 0 && HeadsOk(heads, stored, checkpoint, size) && Linked(canon)
    requires stored > checkpoint && CanonicalHead(heads, canon, size, stored - 1) && s < stored && s + 1 >= checkpoint
    ensures CanonicalHead(heads, canon, size, s)
    decreases stored - s
  {
    if s + 1 < stored {
      VouchDown(heads, stored, checkpoint, size, canon, s + 1);
      VouchOne(heads, size, canon, s);
    }
  }

  lemma VouchOne(heads: map<nat, Block>, size: nat, canon: map<nat, Block>, s: nat)
    requires size > 0 && Linked(canon) && s in heads && CanonicalHead(heads, canon, size, s + 1)
    requires Generations(Some(heads[s]), heads[s + 1], size)
    ensures CanonicalHead(heads, canon, size, s)
  {
    var n := End(s + 1, size);
    assert n - size == End(s, size);
    assert canon[n] == heads[s + 1];
  }

  /** How many sections are left once those at the top whose heads are not canonical are given up,
      down to the checkpoint. */
  ghost function Trusted(heads: map<nat, Block>, stored: nat, checkpoint: nat, size: nat, canon: map<nat, Block>): nat
    requires size > 0
  {
    if stored <= checkpoint || stored == 0 || CanonicalHead(heads, canon, size, stored - 1) then stored
    else Trusted(heads, stored - 1, checkpoint, size, canon)
  }

  lemma TrustedNext(heads: map<nat, Block>, stored: nat, checkpoint: nat, size: nat, canon: map<nat, Block>)
    requires size > 0 && checkpoint < stored && stored - 1 in heads
    ensures Trusted(heads, stored, checkpoint, size, canon) ==
            if Some(heads[stored - 1]) == Lookup(canon, End(stored - 1, size)) then stored
            else Trusted(heads, stored - 1, checkpoint, size, canon)
  {
  }

  lemma TrustedEnd(heads: map<nat, Block>, stored: nat, checkpoint: nat, size: nat, canon: map<nat, Block>)
    requires size > 0 && stored <= checkpoint
    ensures Trusted(heads, stored, checkpoint, size, canon) == stored
  {
  }

  /** It is the largest number whose last head is canonical, or the checkpoint. */
  lemma {:induction false} TrustedFacts(heads: map<nat, Block>, stored: nat, checkpoint: nat, size: nat, canon: map<nat, Block>)
    requires size > 0
    ensures var k := Trusted(heads, stored, checkpoint, size, canon);
            && k <= stored && (checkpoint <= stored ==> checkpoint <= k) && (stored <= checkpoint ==> k == stored)
            && (k <= checkpoint || CanonicalHead(heads, canon, size, k - 1))
            && forall s: nat :: k <= s < stored ==> !CanonicalHead(heads, canon, size, s)
  {
    hide CanonicalHead;
    if !(stored <= checkpoint || stored == 0 || CanonicalHead(heads, canon, size, stored - 1)) {
      TrustedFacts(heads, stored - 1, checkpoint, size, canon);
    }
  }

  /** The blocks of the first n sections. */
  function Span(n: nat, size: nat): nat {
    n * size
  }

  lemma SpanMonotone(m: nat, n: nat, size: nat)
    requires m <= n
    ensures Span(m, size) <= Span(n, size) && Span(0, size) == 0
  {
    assert (n - m) * size >= 0;
  }

  /** How many whole sections fit into n blocks. */
  function Quotient(n: nat, size: nat): (q: nat)
    requires size > 0
    ensures Span(q, size) <= n < Span(q + 1, size)
  {
    n / size
  }

  /** Section s is whole up to block n exactly when fewer sections come before it than fit. */
  lemma Whole(s: nat, n: nat, size: nat)
    requires size > 0
    ensures s < Quotient(n + 1, size) <==> End(s, size) <= n
  {
    hide Span;
    var q := Quotient(n + 1, size);
    assert End(s, size) + 1 == Span(s + 1, size) by { Ends(s, size); }
    if s < q {
      SpanMonotone(s + 1, q, size);
    } else {
      SpanMonotone(q + 1, s + 1, size);
    }
  }

  lemma Ends(s: nat, size: nat)
    requires size > 0
    ensures End(s, size) + 1 == Span(s + 1, size)
  {
  }

  lemma StartAt(canon: map<nat, Block>, s: nat, size: nat)
    requires size > 0
    ensures s * size <= Span(s + 1, size) && (s > 0 ==> End(s - 1, size) == s * size - 1)
  {
  }

  lemma LinkedParent(canon: map<nat, Block>, s: nat, size: nat, n: nat)
    requires size > 0 && Linked(canon) && n <= Span(s + 1, size)
    requires forall m: nat :: m <= End(s, size) ==> m in canon
    ensures Span(s + 1, size) == End(s, size) + 1
    ensures n < Span(s + 1, size) ==>
              Number(canon[n]) == n && ParentOf(canon[n]) == if n == 0 then None else Some(canon[n - 1])
  {
    if 0 < n < Span(s + 1, size) {
      AtFacts(canon[n], n - 1);
      assert n - 1 in canon && canon[n - 1] == At(canon[n], n - 1);
      AtSelf(canon[n].parent);
    }
  }

  lemma RunningFacts(work: Job, size: nat)
    requires size > 0 && WorkOk(work, size) && work.Running?
    ensures work.next == (work.section + 1) * size ==> work.last.Some? && Generations(work.oldHead, work.last.value, size)
    ensures (work.section + 1) * size == work.section * size + size
  {
  }

  class ChainIndexer {
    const size: nat
    const confirms: nat
    var canon: map<nat, Block>
    var headers: set<Block>
    var stored: nat
    var known: nat
    var cascaded: nat
    var heads: map<nat, Block>
    var checkpoint: nat
    var checkpointHead: Option<Block>
    var work: Job

    ghost predicate Valid()
      reads this
    {
      size > 0 && HeadsOk(heads, stored, checkpoint, size) && WorkOk(work, size)
    }

    ghost function View(): State
      reads this
    {
      State(canon, headers, stored, known, cascaded, heads, checkpoint, checkpointHead, work)
    }

    constructor (size: nat, confirms: nat)
      requires size > 0
      ensures Valid() && stored == 0 && work == Idle && this.size == size && this.confirms == confirms
    {
      this.size, this.confirms := size, confirms;
      canon, headers, heads := map[], {}, map[];
      stored, known, cascaded, checkpoint, checkpointHead, work := 0, 0, 0, 0, None, Idle;
    }

    function SectionHead(s: nat): Option<Block>
      reads this`heads
    {
      if s in heads then Some(heads[s]) else None
    }

    function CanonicalAt(n: nat): Option<Block>
      reads this`canon
    {
      if n in canon then Some(canon[n]) else None
    }

    /** The chain moves on in any way at all. */
    method ChainMoves(canon': map<nat, Block>, headers': set<Block>)
      requires Valid()
      modifies this`canon, this`headers
      ensures Valid() && View() == old(View()).(canon := canon', headers := headers')
    {
      canon, headers := canon', headers';
    }

    /** Sets the number of valid sections, removing the heads of those given up. */
    method SetValidSections(sections: nat)
      requires forall s :: s in heads ==> s < stored || s < sections
      modifies this`stored, this`heads
      ensures stored == sections
      ensures forall s :: s in heads <==> s in old(heads) && s < sections
      ensures forall s :: s in heads ==> heads[s] == old(heads)[s]
    {
      while stored > sections
        invariant stored <= sections ==> forall s :: s in heads ==> s < sections
        invariant stored > sections ==> forall s :: s in heads ==> s < stored
        invariant forall s :: s in heads ==> s in old(heads) && heads[s] == old(heads)[s]
        invariant forall s :: s in old(heads) && s < sections ==> s in heads
      {
        stored := stored - 1;
        heads := heads - {stored};
      }
      stored := sections;
    }

    /** Gives up sections from the top until the last head is canonical or the checkpoint is met. */
    method VerifyLastHead()
      requires Valid()
      modifies this`stored, this`heads
      ensures Valid() && stored <= old(stored) && View() == Verified(old(View()), size)
      ensures stored <= checkpoint || SectionHead(stored - 1) == CanonicalAt(End(stored - 1, size))
      ensures stored <= checkpoint ==> stored == old(stored) || stored == checkpoint
      ensures stored == old(stored) ==> heads == old(heads)
      ensures stored == Trusted(old(heads), old(stored), checkpoint, size, canon) && HeadsBelow(old(heads), heads, stored)
      ensures forall s: nat :: stored <= s < old(stored) ==>
                s in old(heads) && Some(old(heads)[s]) != CanonicalAt(End(s, size))
      ensures Linked(canon) && stored > checkpoint ==> Vouched(heads, stored, checkpoint, size, canon)
    {
      hide Generations, Linked, WorkOk, End, HeadsOk, Vouched, Keep, Trusted;
      LastPresent(heads, stored, checkpoint, size);
      while stored > 0 && stored > checkpoint
        invariant Valid() && stored <= old(stored)
        invariant if stored == old(stored) then heads == old(heads) else stored >= checkpoint
        invariant HeadsBelow(old(heads), heads, stored)
        invariant Trusted(old(heads), old(stored), checkpoint, size, canon) == Trusted(old(heads), stored, checkpoint, size, canon)
        invariant forall s: nat :: stored <= s < old(stored) ==>
                    s in old(heads) && Some(old(heads)[s]) != CanonicalAt(End(s, size))
      {
        LastPresent(heads, stored, checkpoint, size);
        TrustedNext(old(heads), stored, checkpoint, size, canon);
        if SectionHead(stored - 1) == CanonicalAt(End(stored - 1, size)) {
          KeepIs(old(View()), heads, stored);
          if Linked(canon) {
            Vouch(heads, stored, checkpoint, size, canon);
          }
          return;
        }
        ghost var heads0, stored0 := heads, stored;
        SetValidSections(stored - 1);
        Cut(heads0, stored0, checkpoint, size, heads, stored);
      }
      TrustedEnd(old(heads), stored, checkpoint, size, canon);
      KeepIs(old(View()), heads, stored);
    }

    /** A new chain head. After a reorganisation exactly the sections that end at or below the common
        block, or lie below the checkpoint, stay; otherwise sections become known once they have their
        confirmations. */
    method NewHead(head: nat, reorg: bool)
      requires Valid()
      modifies this`stored, this`heads, this`known, this`cascaded
      ensures Valid() && stored <= old(stored) && HeadsBelow(old(heads), heads, stored)
      ensures View() == if reorg then Reverted(old(View()), head, size) else Notified(old(View()), head, size, confirms)
      ensures reorg ==> forall s: nat :: s < old(stored) ==> (s < stored <==> s < checkpoint || End(s, size) <= head)
      ensures reorg ==> known <= old(known) && Span(known, size) <= head + 1
      ensures reorg ==>
                var whole := Quotient(head + 1, size);
                var kept := if whole < checkpoint then 0 else whole;
                && stored == Lesser(old(stored), if whole < checkpoint then checkpoint else whole) && known == Lesser(old(known), kept)
                && cascaded == Lesser(old(cascaded), Span(kept, size))
      ensures !reorg ==> stored == old(stored) && known >= old(known) && cascaded == old(cascaded)
      ensures !reorg && head >= confirms ==>
                var sections := Quotient(head + 1 - confirms, size);
                (&& sections > old(known) && sections >= checkpoint
                 && (old(known) >= checkpoint || CanonicalAt(End(checkpoint - 1, size)) == checkpointHead)) ==> known == sections
      ensures !reorg && known > old(known) ==>
                && known >= checkpoint && Span(known, size) + confirms <= head + 1 < Span(known + 1, size) + confirms
                && (old(known) < checkpoint ==> CanonicalAt(End(checkpoint - 1, size)) == checkpointHead)
    {
      hide Generations, WorkOk, End, HeadsOk, Span;
      LastPresent(heads, stored, checkpoint, size);
      if reorg {
        Revert(head);
        RevertedFacts(old(View()), head, size);
        return;
      }
      if head >= confirms {
        var sections := Quotient(head + 1 - confirms, size);
        if sections < checkpoint {
          sections := 0;
        }
        if sections > known {
          if known < checkpoint {
            if CanonicalAt(End(checkpoint - 1, size)) != checkpointHead {
              return;
            }
          }
          known := sections;
        }
      }
    }

    /** Falls back to a common block. */
    method Revert(head: nat)
      requires Valid()
      modifies this`stored, this`heads, this`known, this`cascaded
      ensures Valid() && View() == Reverted(old(View()), head, size) && HeadsBelow(old(heads), heads, stored)
    {
      hide Generations, WorkOk, End, HeadsOk, Span, Keep;
      LastPresent(heads, stored, checkpoint, size);
      var sections := Quotient(head + 1, size);
      var stored' := sections;
      if sections < checkpoint {
        sections := 0;
      }
      if stored' < checkpoint {
        stored' := checkpoint;
      }
      if sections < known {
        known := sections;
      }
      if stored' < stored {
        SetValidSections(stored');
        Cut(old(heads), old(stored), checkpoint, size, heads, stored);
      }
      if Span(sections, size) < cascaded {
        cascaded := Span(sections, size);
      }
      KeepIs(old(View()), heads, stored);
    }

    /** Declares everything up to a section valid on the word of a checkpoint. */
    method AddCheckpoint(section: nat, head: Block)
      requires Valid()
      modifies this`checkpoint, this`checkpointHead, this`stored, this`heads
      ensures Valid() && checkpoint >= old(checkpoint) && stored >= old(stored) && View() == Pinned(old(View()), section, head)
      ensures if section < old(stored) || section < old(checkpoint) then unchanged(this)
              else
                && stored == checkpoint == section + 1 && checkpointHead == Some(head)
                && SectionHead(section) == Some(head)
    {
      hide Generations, WorkOk;
      if checkpoint >= section + 1 || section < stored {
        return;
      }
      checkpoint := section + 1;
      checkpointHead := Some(head);
      heads := heads[section := head];
      SetValidSections(section + 1);
      KeepIs(old(View()).(heads := old(heads)[section := head]), heads, stored);
    }

    /** Starts on the next section, if one is known beyond the stored ones. */
    method Begin()
      requires Valid() && work == Idle
      modifies this`stored, this`heads, this`work
      ensures Valid() && stored <= old(stored) && View() == Begun(old(View()), size)
      ensures known <= old(stored) ==> unchanged(this)
      ensures stored == old(stored) ==> heads == old(heads)
      ensures known > old(stored) ==> work == Running(stored, HeadAt(heads, stored), stored * size, HeadAt(heads, stored))
      ensures old(stored) > 0 && old(SectionHead(stored - 1)) == CanonicalAt(End(old(stored) - 1, size)) ==>
                stored == old(stored)
    {
      hide Generations, End, HeadsOk, Vouched;
      if known > stored {
        VerifyLastHead();
        LastPresent(heads, stored, checkpoint, size);
        var oldHead := if stored > 0 then SectionHead(stored - 1) else None;
        assert stored * size <= (stored + 1) * size;
        work := Running(stored, oldHead, stored * size, oldHead);
      }
    }

    /** The backend refuses to start the section: every section is given up. */
    method ResetFails()
      requires Valid() && work.Running?
      modifies this`stored, this`heads, this`work
      ensures Valid() && stored == 0 && heads == map[] && View() == Keep(old(View()), 0).(work := Broken(old(work).section, old(work).oldHead))
    {
      hide Generations;
      LastPresent(heads, stored, checkpoint, size);
      SetValidSections(0);
      Cut(old(heads), old(stored), checkpoint, size, heads, 0);
      KeepIs(old(View()), heads, 0);
      work := Broken(work.section, work.oldHead);
    }

    /** Hands the next header of the section to the backend, or commits the section at its end. The
        job fails when a header is missing, does not continue the last one, or the backend objects. */
    method ProcessNext(backendOk: bool)
      requires Valid() && work.Running?
      modifies this`work
      ensures Valid() && !work.Idle? && work.section == old(work).section && work.oldHead == old(work).oldHead
      ensures View() == Processed(old(View()), backendOk, size)
      ensures var w := old(work);
              if w.next == Span(w.section + 1, size) then
                if backendOk then w.last.Some? && work == Done(w.section, w.oldHead, w.last.value) else work.Broken?
              else if backendOk && Continues(w.next, w.last) then
                work == Running(w.section, w.oldHead, w.next + 1, CanonicalAt(w.next))
              else work.Broken?
    {
      hide Generations, HeadsOk;
      var w := work;
      RunningFacts(w, size);
      if w.next == (w.section + 1) * size {
        work := if backendOk then Done(w.section, w.oldHead, w.last.value) else Broken(w.section, w.oldHead);
        return;
      }
      work := Broken(w.section, w.oldHead);
      var hash := CanonicalAt(w.next);
      if hash == None {
        return;
      }
      var header := hash.value;
      if header !in headers || Number(header) != w.next {
        return;
      }
      if ParentOf(header) != w.last {
        return;
      }
      if !backendOk {
        return;
      }
      NextGeneration(w.oldHead, w.last, header, w.next - w.section * size);
      work := Running(w.section, w.oldHead, w.next + 1, hash);
    }

    /** The canonical header at a height is available and builds on the last one. */
    predicate Continues(n: nat, last: Option<Block>)
      reads this`canon, this`headers
    {
      n in canon && canon[n] in headers && Number(canon[n]) == n && ParentOf(canon[n]) == last
    }

    /** Stores a processed section if the head below it is still the one it was built on. */
    method Finish()
      requires Valid() && (work.Done? || work.Broken?)
      modifies this`work, this`stored, this`heads, this`known, this`cascaded
      ensures Valid() && work == Idle && View() == Finished(old(View()), size)
      ensures var w := old(work);
              if w.Done? && (w.section == 0 || w.oldHead == old(SectionHead(w.section - 1))) then
                && stored == w.section + 1 && SectionHead(w.section) == Some(w.newHead) && known == old(known)
                && cascaded == End(w.section, size)
              else
                && stored <= old(stored) && known == stored && cascaded == old(cascaded)
                && (stored <= checkpoint || SectionHead(stored - 1) == CanonicalAt(End(stored - 1, size)))
    {
      hide Generations, End, Vouched, Span, HeadsOk, Keep, Trusted;
      var w := work;
      if w.Done? && (w.section == 0 || w.oldHead == SectionHead(w.section - 1)) {
        LastPresent(heads, stored, checkpoint, size);
        heads := heads[w.section := w.newHead];
        SetValidSections(w.section + 1);
        Append(old(heads), old(stored), checkpoint, size, w.section, w.oldHead, w.newHead, heads);
        cascaded := End(w.section, size);
        KeepIs(old(View()).(heads := old(heads)[w.section := w.newHead]), heads, stored);
      } else {
        VerifyLastHead();
        known := stored;
      }
      work := Idle;
    }

    /** The number of valid sections, the height of the last one's end and its head. */
    method Sections() returns (sections: nat, number: nat, head: Option<Block>)
      requires Valid()
      modifies this`stored, this`heads
      ensures Valid() && View() == Verified(old(View()), size) && sections == stored <= old(stored)
      ensures sections == 0 ==> number == TWO64 - 1 && head == None
      ensures sections > 0 ==> number == End(sections - 1, size) && head == SectionHead(sections - 1) && head.Some?
      ensures Linked(canon) && sections > checkpoint ==> Vouched(heads, sections, checkpoint, size, canon) && head == CanonicalAt(number)
    {
      hide Generations, End, HeadsOk, Linked, Vouched, WorkOk;
      VerifyLastHead();
      LastPresent(heads, stored, checkpoint, size);
      sections := stored;
      if stored > 0 {
        number, head := End(stored - 1, size), SectionHead(stored - 1);
      } else {
        number, head := TWO64 - 1, None;
      }
    }

    /** Undisturbed, on an available linked chain, one section beyond a canonical last head is
        processed and stored. */
    method Update()
      requires Valid() && work == Idle && known > stored
      requires stored > 0 ==> SectionHead(stored - 1) == CanonicalAt(End(stored - 1, size))
      requires Linked(canon) && forall n: nat :: n <= End(stored, size) ==> n in canon && canon[n] in headers
      modifies this`work, this`stored, this`heads, this`known, this`cascaded
      ensures Valid() && stored == old(stored) + 1 && known == old(known) && work == Idle
      ensures CanonicalHead(heads, canon, size, old(stored))
    {
      hide Generations, HeadsOk, WorkOk, Linked, Vouched, Span, Keep, Trusted, Begun, Processed, Finished, HeadsBelow;
      Begin();
      StartAt(canon, stored, size);
      while work.Running?
        invariant Valid() && canon == old(canon) && headers == old(headers) && stored == old(stored) && heads == old(heads)
        invariant !work.Idle? && !work.Broken? && work.section == old(stored)
        invariant known == old(known) && work.oldHead == HeadAt(heads, stored)
        invariant work.Running? ==> work.last == if work.next == 0 then None else CanonicalAt(work.next - 1)
        invariant work.Done? ==> Some(work.newHead) == CanonicalAt(End(stored, size))
        invariant work.Running? ==> work.next <= Span(stored + 1, size)
        decreases if work.Running? then Span(stored + 1, size) + 1 - work.next else 0
      {
        LinkedParent(canon, stored, size, work.next);
        ProcessNext(true);
      }
      Finish();
    }

    /** However the steps interleave with chain movements and with the background job, the invariant
        holds, so a canonical last head always vouches for every section from the checkpoint up. */
    method Run(steps: seq<Step>)
      requires Valid()
      modifies this
      ensures Valid() && View() == Played(old(View()), steps, size, confirms)
      ensures Linked(canon) && stored > checkpoint && CanonicalHead(heads, canon, size, stored - 1) ==>
                Vouched(heads, stored, checkpoint, size, canon)
    {
      hide HeadsOk, WorkOk, Linked, Vouched, CanonicalHead, End, Span, Verified, Reverted, Notified, Pinned, Begun, Processed, Finished, Keep, Trusted,
           HeadsBelow;
      for i := 0 to |steps|
        invariant Valid() && View() == Played(old(View()), steps[..i], size, confirms)
      {
        assert steps[..i + 1][..i] == steps[..i];
        match steps[i] {
          case Moves(canon', headers') => ChainMoves(canon', headers');
          case Head(head, reorg) => NewHead(head, reorg);
          case Checkpoint(section, head) => AddCheckpoint(section, head);
          case Query => var _, _, _ := Sections();
          case Work(ok) =>
            if work.Idle? {
              Begin();
            } else if work.Running? {
              ProcessNext(ok);
            } else {
              Finish();
            }
          case Reset =>
            if work.Running? {
              ResetFails();
            }
        }
      }
      assert steps[..|steps|] == steps;
      if Linked(canon) && stored > checkpoint && CanonicalHead(heads, canon, size, stored - 1) {
        Vouch(heads, stored, checkpoint, size, canon);
      }
    }
  }
}
