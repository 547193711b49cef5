/** core/chain_indexer.go: processing the chain in sections. A section is processed without the lock,
    while notifications about new heads and reorganisations keep arriving; it is committed only if
    its predecessor is still the one it was built on. */
module ChainIndexers {
  import opened Basics

  /** Following `k` parent links from `h`. Headers are content-addressed, so the links never change. */
  ghost function Up(parents: Hash -> Hash, h: Hash, k: nat): Hash
    decreases k
  {
    if k == 0 then h else Up(parents, parents(h), k - 1)
  }

  /** What processSection sees for one block number: the canonical hash at that moment (0 if none),
      whether its header is found, and whether the backend accepts it. */
  datatype Reading = Reading(hash: Hash, found: bool, accepted: bool)

  /** A section being processed, on top of the head of the previous one. */
  datatype Task = Task(section: nat, oldHead: Hash, broken: bool)

  datatype Event =
    | NewHead(head: nat, reorg: bool, syncedHead: Hash)
    | Begin
    | BackendReset
    | Process(readings: seq<Reading>, committed: bool)

  /** The head of the section before `section`; the zero hash if it is not stored. For section 0 the
      source asks for number 2^64 - 1, which is never stored. */
  function HeadBefore(heads: map<nat, Hash>, section: nat): Hash {
    if section > 0 && section - 1 in heads then heads[section - 1] else 0
  }

  /** Section `i` has a head, which reaches the previous section's head by exactly `size` parent links. */
  ghost predicate Linked(parents: Hash -> Hash, size: nat, heads: map<nat, Hash>, i: nat) {
    i in heads && Up(parents, heads[i], size) == HeadBefore(heads, i)
  }

  /** No section head at or above `stored`; the sections from `base` on were processed, and each of
      them is linked to the one before. */
  ghost predicate Sound(parents: Hash -> Hash, size: nat, heads: map<nat, Hash>, base: nat, stored: nat) {
    && base <= stored && (base > 0 ==> base - 1 in heads)
    && (forall i :: i in heads ==> i < stored && (i >= base ==> heads[i] != 0))
    && (forall i :: base <= i < stored ==> Linked(parents, size, heads, i))
  }

  lemma SoundMore(parents: Hash -> Hash, size: nat, heads: map<nat, Hash>, base: nat, stored: nat, head: Hash)
    requires Sound(parents, size, heads, base, stored)
    requires head != 0 && Up(parents, head, size) == HeadBefore(heads, stored)
    ensures Sound(parents, size, heads[stored := head], base, stored + 1)
  {
    var more := heads[stored := head];
    forall i | base <= i < stored + 1
      ensures Linked(parents, size, more, i)
    {
      assert i < stored ==> Linked(parents, size, heads, i);
    }
  }

  lemma WholeSections(blocks: nat, size: nat, sections: nat)
    requires size > 0
    ensures sections <= blocks / size <==> sections * size <= blocks
  {
    var n := blocks / size;
    assert n * size <= blocks < (n + 1) * size;
    if sections <= n {
      assert sections * size <= n * size;
    } else {
      assert (n + 1) * size <= sections * size;
    }
  }

  ghost function Prefix(heads: map<nat, Hash>, stored: nat): map<nat, Hash> {
    map i | i in heads && i < stored :: heads[i]
  }

  lemma SoundPrefix(parents: Hash -> Hash, size: nat, heads: map<nat, Hash>, base: nat, stored: nat, sections: nat)
    requires Sound(parents, size, heads, base, stored)
    requires sections <= stored && (sections == 0 || base <= sections)
    ensures Sound(parents, size, Prefix(heads, sections), if sections == 0 then 0 else base, sections)
    ensures sections == stored ==> Prefix(heads, sections) == heads
  {
    var fewer := Prefix(heads, sections);
    forall i | base <= i < sections
      ensures Linked(parents, size, fewer, i)
    {
      assert Linked(parents, size, heads, i);
    }
  }

  /** Following the section heads down: `n` whole sections are `n * size` parent links. */
  lemma {:induction false} SectionsDescend(parents: Hash -> Hash, size: nat, heads: map<nat, Hash>, base: nat,
                                           stored: nat, i: nat, n: nat)
    requires Sound(parents, size, heads, base, stored)
    requires base <= i < stored && n <= i - base
    ensures i in heads && i - n in heads && Up(parents, heads[i], n * size) == heads[i - n]
  {
    assert Linked(parents, size, heads, i);
    if n > 0 {
      SectionsDescend(parents, size, heads, base, stored, i, n - 1);
      assert Linked(parents, size, heads, i - n + 1) && Linked(parents, size, heads, i - n);
      UpUp(parents, heads[i], (n - 1) * size, size);
      assert (n - 1) * size + size == n * size;
    }
  }

  lemma {:induction false} UpUp(parents: Hash -> Hash, h: Hash, j: nat, k: nat)
    ensures Up(parents, Up(parents, h, j), k) == Up(parents, h, j + k)
    decreases j
  {
    if j > 0 {
      UpUp(parents, parents(h), j - 1, k);
    }
  }

  function Latest(last: Hash, readings: seq<Reading>): Hash {
    if readings == [] then last else readings[|readings| - 1].hash
  }

  /** Every block read is canonical and accepted, and its parent is the block read before it. */
  ghost predicate Continues(parents: Hash -> Hash, last: Hash, readings: seq<Reading>) {
    readings == [] ||
    (var before, r := readings[..|readings| - 1], readings[|readings| - 1];
     && Continues(parents, last, before)
     && r.hash != 0 && r.found && r.accepted && parents(r.hash) == Latest(last, before))
  }

  lemma {:induction false} ContinuesPrefix(parents: Hash -> Hash, last: Hash, readings: seq<Reading>, k: nat)
    requires Continues(parents, last, readings) && k <= |readings|
    ensures Continues(parents, last, readings[..k])
  {
    if k < |readings| {
      ContinuesPrefix(parents, last, readings[..|readings| - 1], k);
      assert readings[..|readings| - 1][..k] == readings[..k];
    } else {
      assert readings[..k] == readings;
    }
  }

  lemma {:induction false} ContinuesUp(parents: Hash -> Hash, last: Hash, readings: seq<Reading>)
    requires Continues(parents, last, readings)
    ensures Up(parents, Latest(last, readings), |readings|) == last
  {
    if readings != [] {
      ContinuesUp(parents, last, readings[..|readings| - 1]);
    }
  }

  /** processSection after a successful backend reset: succeeds exactly when the blocks read form a
      chain on top of `lastHead` and the backend accepts and commits it. */
  method ProcessSection(parents: Hash -> Hash, lastHead: Hash, readings: seq<Reading>, committed: bool)
    returns (r: Option<Hash>)
    requires |readings| > 0
    ensures r.Some? == (Continues(parents, lastHead, readings) && committed)
    ensures r.Some? ==> r.value != 0 && Up(parents, r.value, |readings|) == lastHead
  {
    var last := lastHead;
    for i := 0 to |readings|
      invariant Continues(parents, lastHead, readings[..i])
      invariant last == Latest(lastHead, readings[..i])
    {
      assert readings[..i + 1][..i] == readings[..i];
      if readings[i].hash == 0 || !readings[i].found || parents(readings[i].hash) != last || !readings[i].accepted {
        if Continues(parents, lastHead, readings) {
          ContinuesPrefix(parents, lastHead, readings, i + 1);
        }
        return None;
      }
      last := readings[i].hash;
    }
    assert readings[..|readings|] == readings;
    if !committed {
      return None;
    }
    ContinuesUp(parents, lastHead, readings);
    return Some(last);
  }

  class ChainIndexer {
    const sectionSize: nat
    const confirmsReq: nat
    const checkpointSections: nat
    const checkpointHead: Hash
    const parents: Hash -> Hash

    var storedSections: nat
    var knownSections: nat
    var cascadedHead: int
    var heads: map<nat, Hash>
    var task: Option<Task>

    /** The first section that was processed rather than taken from a checkpoint. */
    ghost var base: nat

    ghost predicate Valid()
      reads this
    {
      && sectionSize > 0
      && Sound(parents, sectionSize, heads, base, storedSections)
      && (base == 0 || base <= checkpointSections)
      && (task.Some? ==> Pending(task.value, heads, storedSections, checkpointSections))
    }

    /** The sections that are complete and confirmed by enough blocks, at least those of the checkpoint. */
    function Confirmed(head: nat): nat
      reads this
      requires sectionSize > 0
    {
      if head < confirmsReq || (head + 1 - confirmsReq) / sectionSize < checkpointSections then 0
      else (head + 1 - confirmsReq) / sectionSize
    }

    /** A section is confirmed exactly if its last block has enough blocks on top, and so has the checkpoint's last. */
    lemma ConfirmedExactly(head: nat, section: nat)
      requires sectionSize > 0
      ensures section < Confirmed(head) <==>
                && head >= confirmsReq && (section + 1) * sectionSize + confirmsReq <= head + 1
                && checkpointSections * sectionSize + confirmsReq <= head + 1
    {
      if head >= confirmsReq {
        WholeSections(head + 1 - confirmsReq, sectionSize, section + 1);
        WholeSections(head + 1 - confirmsReq, sectionSize, checkpointSections);
      }
    }

    /** What a reorganisation leaves of `stored` sections: exactly those that end below its head or belong to the
        checkpoint. */
    lemma ReorgKeeps(stored: nat, head: nat, section: nat)
      requires sectionSize > 0
      ensures section < Min(stored, Max(head / sectionSize, checkpointSections)) <==>
                section < stored && ((section + 1) * sectionSize <= head || section < checkpointSections)
    {
      WholeSections(head, sectionSize, section + 1);
    }

    /** A new indexer over the sections an earlier run left in the database. A checkpoint may be added
        before it starts; it must not be below the one of the earlier run. */
    constructor (sectionSize: nat, confirmsReq: nat, parents: Hash -> Hash, stored: nat, heads: map<nat, Hash>,
                 checkpoint: Option<(nat, Hash)>, ghost base: nat)
      requires sectionSize > 0 && Sound(parents, sectionSize, heads, base, stored)
      requires base == 0 || (checkpoint.Some? && base <= checkpoint.value.0 + 1)
      ensures Valid() && task.None? && this.sectionSize == sectionSize && this.parents == parents
      ensures checkpoint.None? || checkpoint.value.0 < stored ==> this.heads == heads && storedSections == stored
      ensures checkpoint.Some? && checkpoint.value.0 >= stored ==>
                storedSections == checkpointSections && this.heads == heads[checkpoint.value.0 := checkpoint.value.1]
    {
      this.sectionSize, this.confirmsReq, this.parents := sectionSize, confirmsReq, parents;
      knownSections, cascadedHead, task := 0, 0, None;
      checkpointSections, checkpointHead := 0, 0;
      this.heads, storedSections, this.base := heads, stored, base;
      if checkpoint.Some? {
        var section := checkpoint.value.0;
        checkpointSections, checkpointHead := section + 1, checkpoint.value.1;
        if section >= stored {
          this.heads, storedSections, this.base := heads[section := checkpoint.value.1], section + 1, section + 1;
        }
      }
    }

    /** setValidSections when sections are taken back. */
    static method TakeBack(heads: map<nat, Hash>, stored: nat, sections: nat) returns (r: map<nat, Hash>)
      requires sections <= stored && forall i :: i in heads ==> i < stored
      ensures r == Prefix(heads, sections)
    {
      r := heads;
      var i := stored;
      while i > sections
        invariant sections <= i <= stored
        invariant r == Prefix(heads, i)
      {
        i := i - 1;
        r := r - {i};
      }
    }

    method Rollback(sections: nat)
      requires Valid() && sections < storedSections && (sections == 0 || base <= sections)
      requires task.Some? && !task.value.broken ==> checkpointSections <= sections
      modifies this`storedSections, this`heads, this`base
      ensures Valid() && storedSections == sections
      ensures heads == Prefix(old(heads), sections)
    {
      SoundPrefix(parents, sectionSize, heads, base, storedSections, sections);
      heads := TakeBack(heads, storedSections, sections);
      storedSections := sections;
      if sections == 0 {
        base := 0;
      }
    }

    /** newHead, for this indexer alone. `syncedHead` is the canonical hash at the end of the checkpoint. */
    method OnNewHead(head: nat, reorg: bool, syncedHead: Hash)
      requires Valid()
      modifies this`storedSections, this`knownSections, this`cascadedHead, this`heads, this`base
      ensures Valid() && heads == Prefix(old(heads), storedSections)
      ensures reorg ==>
                storedSections == Min(old(storedSections), Max(head / sectionSize, checkpointSections)) &&
                knownSections == Min(old(knownSections),
                                     if head / sectionSize < checkpointSections then 0 else head / sectionSize)
      ensures reorg ==>
                var end := if head / sectionSize < checkpointSections then 0 else head / sectionSize * sectionSize;
                cascadedHead == if end < old(cascadedHead) then end else old(cascadedHead)
      ensures !reorg ==>
                && storedSections == old(storedSections) && cascadedHead == old(cascadedHead)
                && (checkpointSections <= old(knownSections) || syncedHead == checkpointHead ==>
                      knownSections == Max(old(knownSections), Confirmed(head)))
                && (old(knownSections) < checkpointSections && syncedHead != checkpointHead ==>
                    knownSections == old(knownSections))
    {
      SoundPrefix(parents, sectionSize, heads, base, storedSections, storedSections);
      hide Sound;
      var sections := head / sectionSize;
      if reorg {
        var known := if sections < checkpointSections then 0 else sections;
        var stored := Max(sections, checkpointSections);
        if known < knownSections {
          knownSections := known;
        }
        if stored < storedSections {
          Rollback(stored);
        }
        if known * sectionSize < cascadedHead {
          cascadedHead := known * sectionSize;
        }
        return;
      }
      if head >= confirmsReq {
        sections := (head + 1 - confirmsReq) / sectionSize;
        if sections < checkpointSections {
          sections := 0;
        }
        if sections > knownSections {
          if knownSections < checkpointSections && syncedHead != checkpointHead {
            return;
          }
          knownSections := sections;
        }
      }
    }

    /** The first locked part of an update: pick the section to process. */
    method OnBegin()
      requires Valid() && task.None?
      modifies this`task
      ensures Valid()
      ensures task == if knownSections > storedSections
                      then Some(Task(storedSections, HeadBefore(heads, storedSections), false)) else None
    {
      if knownSections > storedSections {
        task := Some(Task(storedSections, HeadBefore(heads, storedSections), false));
        LastStored(parents, sectionSize, heads, base, storedSections);
      }
    }

    /** processSection's reaction to a failing backend reset: all sections become invalid. */
    method OnBackendReset()
      requires Valid() && task.Some?
      modifies this`storedSections, this`heads, this`base, this`task
      ensures Valid() && storedSections == 0 && heads == map[]
      ensures task == Some(old(task).value.(broken := true))
    {
      task := Some(task.value.(broken := true));
      if storedSections > 0 {
        Rollback(0);
      }
      assert heads == map[];
    }

    /** The second locked part of an update. A section is committed exactly if its processing succeeded
        and it still directly follows the stored ones. */
    method OnFinish(result: Option<Hash>) returns (done: bool)
      requires Valid() && task.Some? && (task.value.broken ==> result.None?)
      requires result.Some? ==> result.value != 0 && Up(parents, result.value, sectionSize) == task.value.oldHead
      modifies this`storedSections, this`knownSections, this`cascadedHead, this`heads, this`task
      ensures Valid() && task.None?
      ensures done == (result.Some? && old(storedSections) == old(task).value.section)
      ensures if done then storedSections == old(storedSections) + 1 &&
                           heads == old(heads)[old(storedSections) := result.value] &&
                           knownSections == old(knownSections) && cascadedHead == storedSections * sectionSize - 1
              else storedSections == old(storedSections) && heads == old(heads) && knownSections == storedSections
    {
      hide Sound;
      var t := task.value;
      StillNext(parents, sectionSize, heads, base, storedSections, checkpointSections, t);
      task := None;
      if result.Some? && t.oldHead == HeadBefore(heads, t.section) {
        SoundMore(parents, sectionSize, heads, base, storedSections, result.value);
        heads := heads[t.section := result.value];
        storedSections := t.section + 1;
        cascadedHead := storedSections * sectionSize - 1;
        return true;
      }
      knownSections := storedSections;
      return false;
    }

    /** One step of a run. Between Begin and the step that ends the processing, notifications arrive in
        any number and order, and the canonical chain the readings come from is arbitrary. */
    method Step(e: Event)
      requires Valid() && (e.Process? ==> |e.readings| == sectionSize)
      modifies this
      ensures Valid()
    {
      match e
      case NewHead(head, reorg, syncedHead) => OnNewHead(head, reorg, syncedHead);
      case Begin =>
        if task.None? {
          OnBegin();
        }
      case BackendReset =>
        if task.Some? {
          OnBackendReset();
        }
      case Process(readings, committed) =>
        if task.Some? {
          var result := None;
          if !task.value.broken {
            result := ProcessSection(parents, task.value.oldHead, readings, committed);
          }
          var done := OnFinish(result);
        }
    }

    /** In every run, no section head is at or above storedSections, and each processed section's head
        descends from the stored head of the section before it by exactly sectionSize parent links. */
    method Run(events: seq<Event>)
      requires Valid() && forall i :: 0 <= i < |events| && events[i].Process? ==> |events[i].readings| == sectionSize
      modifies this
      ensures Valid()
      ensures forall i :: i in heads ==> i < storedSections
      ensures forall i :: base <= i < storedSections ==> Linked(parents, sectionSize, heads, i)
      ensures base == 0 || base <= checkpointSections
    {
      for i := 0 to |events|
        invariant Valid()
      {
        Step(events[i]);
      }
    }
  }

  /** The section being processed is not below the stored ones; if it is the next one, its predecessor is
      the one it is built on, unless the backend broke. A zero predecessor stands for none, or for a checkpoint
      with a zero hash, which no reorganisation goes below. */
  ghost predicate Pending(t: Task, heads: map<nat, Hash>, stored: nat, checkpointSections: nat) {
    && stored <= t.section
    && (t.oldHead == 0 && !t.broken ==> stored == t.section <= checkpointSections)
    && (stored == t.section ==> HeadBefore(heads, t.section) == t.oldHead || t.broken)
  }

  lemma LastStored(parents: Hash -> Hash, size: nat, heads: map<nat, Hash>, base: nat, stored: nat)
    requires Sound(parents, size, heads, base, stored)
    ensures HeadBefore(heads, stored) == 0 ==> stored == base
  {
    assert base < stored ==> Linked(parents, size, heads, stored - 1);
  }

  /** The comparison of section heads tells exactly whether the section is still the next one. */
  lemma StillNext(parents: Hash -> Hash, size: nat, heads: map<nat, Hash>, base: nat, stored: nat, cps: nat, t: Task)
    requires Sound(parents, size, heads, base, stored) && Pending(t, heads, stored, cps)
    ensures !t.broken ==> (t.oldHead == HeadBefore(heads, t.section) <==> t.section == stored)
  {}
}
