/**
 * The queue engine (TaskScheduler/Src/queue.c).
 *
 * A queue is an intrusive singly linked list threaded through the `next`
 * field of the five TCBs; a queue is named by its head, a slot index or
 * NULL. `IsQueue(links, head, q)` says that following `links` from `head`
 * visits exactly the slots of the sequence `q`, in order, and stops at NULL.
 * The methods work on the `next` array in place and are proved against the
 * sequence functions `InsertBeforeIdle` and `InsertSorted`.
 */
module Queue {
  import opened Layout

  /** EnqueueMode_e */
  datatype EnqueueMode = RegularEnqueue | EnqueueWithRearIdleTask | EnqueueSorted

  /** DequeueMode_e */
  datatype DequeueMode = RegularDequeue | DequeueWithRearIdleTask

  // ---------------------------------------------------------------------
  // The linked structure
  // ---------------------------------------------------------------------

  /** Every entry is a task slot and no slot appears twice. */
  ghost predicate Members(q: seq<int>)
  {
    && (forall i :: 0 <= i < |q| ==> IsTask(q[i]))
    && (forall i, j :: 0 <= i < j < |q| ==> q[i] != q[j])
  }

  /** Following `links` from `head` visits exactly `q` and then reaches NULL. */
  ghost predicate IsQueue(links: seq<int>, head: int, q: seq<int>)
  {
    && |links| == NUM_TASKS
    && Members(q)
    && head == (if q == [] then NULL else q[0])
    && (forall i :: 0 <= i < |q| - 1 ==> links[q[i]] == q[i + 1])
    && (q != [] ==> links[q[|q| - 1]] == NULL)
  }

  /** Every TCB carries its own slot as `task_id`, as main() sets them up. */
  ghost predicate Identified(ids: seq<int>)
  {
    |ids| == NUM_TASKS && forall t :: 0 <= t < NUM_TASKS ==> ids[t] == t
  }

  /** The arrays the queue engine touches: one entry per TCB, `next` aliasing neither of the others. */
  ghost predicate Arena(next: array<int>, taskId: array<int>, blockCount: array<int>)
    reads taskId
  {
    && next.Length == NUM_TASKS && blockCount.Length == NUM_TASKS
    && next != taskId && next != blockCount
    && Identified(taskId[..])
  }

  // ---------------------------------------------------------------------
  // Insertion policies on the sequence view
  // ---------------------------------------------------------------------

  /** `q` with `t` placed at position `p`. */
  function Splice(q: seq<int>, p: int, t: int): (r: seq<int>)
    requires 0 <= p <= |q|
  {
    q[..p] + [t] + q[p..]
  }

  /** The position of the first idle task in `q`. */
  function IdleIndex(q: seq<int>): (m: nat)
    requires IDLE_TASK in q
    ensures m < |q| && q[m] == IDLE_TASK
    ensures forall j :: 0 <= j < m ==> q[j] != IDLE_TASK
  {
    if q[0] == IDLE_TASK then 0 else 1 + IdleIndex(q[1..])
  }

  /**
   * ENQUEUE_WITH_REAR_IDLE_TASK: an empty queue becomes [t]; otherwise t is
   * placed immediately before the (first) idle task.
   */
  function InsertBeforeIdle(q: seq<int>, t: int): (r: seq<int>)
    requires q == [] || IDLE_TASK in q
    ensures |r| == |q| + 1
    ensures q != [] ==> r[|r| - 1] == q[|q| - 1]
  {
    if q == [] then [t]
    else if q[0] == IDLE_TASK then [t] + q
    else [q[0]] + InsertBeforeIdle(q[1..], t)
  }

  /** Every slot of `q` indexes `keys`. */
  ghost predicate Keyed(q: seq<int>, keys: seq<int>)
  {
    forall i :: 0 <= i < |q| ==> 0 <= q[i] < |keys|
  }

  /** `q` is non-decreasing in `keys` (the block counts). */
  ghost predicate SortedBy(q: seq<int>, keys: seq<int>)
    requires Keyed(q, keys)
  {
    forall i, j :: 0 <= i < j < |q| ==> keys[q[i]] <= keys[q[j]]
  }

  /**
   * ENQUEUE_SORTED: t goes in front of the head only when the head's key is
   * strictly greater; otherwise it goes before the first later element whose
   * key is at least its own, or at the end.
   */
  function InsertSorted(q: seq<int>, t: int, keys: seq<int>): (r: seq<int>)
    requires Keyed(q, keys) && 0 <= t < |keys|
    ensures |r| == |q| + 1
  {
    if q == [] then [t]
    else if keys[q[0]] > keys[t] then [t] + q
    else [q[0]] + InsertAfterHead(q[1..], t, keys)
  }

  /** The scan of ENQUEUE_SORTED past the head: skip keys strictly below t's. */
  function InsertAfterHead(r: seq<int>, t: int, keys: seq<int>): (r': seq<int>)
    requires Keyed(r, keys) && 0 <= t < |keys|
    ensures |r'| == |r| + 1
  {
    if r == [] then [t]
    else if keys[r[0]] < keys[t] then [r[0]] + InsertAfterHead(r[1..], t, keys)
    else [t] + r
  }

  /** Where ENQUEUE_SORTED puts t, characterised without reference to the scan. */
  function SortedPosition(q: seq<int>, t: int, keys: seq<int>): (p: nat)
    requires Keyed(q, keys) && 0 <= t < |keys|
    ensures p <= |q|
    ensures p == 0 <==> (q == [] || keys[q[0]] > keys[t])
    ensures forall j :: 1 <= j < p ==> keys[q[j]] < keys[t]
    ensures 0 < p < |q| ==> keys[q[p]] >= keys[t]
  {
    if q == [] || keys[q[0]] > keys[t] then 0 else 1 + ScanPosition(q[1..], t, keys)
  }

  /** The characterisation in SortedPosition's contract pins the position down. */
  lemma {:induction false} SortedPositionUnique(q: seq<int>, t: int, keys: seq<int>, p: int)
    requires Keyed(q, keys) && 0 <= t < |keys| && 0 <= p <= |q|
    requires p == 0 <==> (q == [] || keys[q[0]] > keys[t])
    requires forall j :: 1 <= j < p ==> keys[q[j]] < keys[t]
    requires 0 < p < |q| ==> keys[q[p]] >= keys[t]
    ensures SortedPosition(q, t, keys) == p
  {
    var p0 := SortedPosition(q, t, keys);
    if p0 < p {
      // p0 is a position before p where the scan would already have stopped
      assert false;
    } else if p < p0 {
      assert false;
    }
  }

  /** Index of the first element of `r` whose key is not below t's (or |r|). */
  function ScanPosition(r: seq<int>, t: int, keys: seq<int>): (p: nat)
    requires Keyed(r, keys) && 0 <= t < |keys|
    ensures p <= |r|
    ensures forall j :: 0 <= j < p ==> keys[r[j]] < keys[t]
    ensures p < |r| ==> keys[r[p]] >= keys[t]
  {
    if r == [] || keys[r[0]] >= keys[t] then 0 else 1 + ScanPosition(r[1..], t, keys)
  }

  /** The sequence an Enqueue in `mode` produces. */
  function Enqueued(q: seq<int>, t: int, mode: EnqueueMode, keys: seq<int>): (r: seq<int>)
    requires mode == EnqueueWithRearIdleTask ==> q == [] || IDLE_TASK in q
    requires mode == EnqueueSorted ==> Keyed(q, keys) && 0 <= t < |keys|
    ensures |r| == |q| + 1
  {
    match mode
    case RegularEnqueue => q + [t]
    case EnqueueWithRearIdleTask => InsertBeforeIdle(q, t)
    case EnqueueSorted => InsertSorted(q, t, keys)
  }

  /** Every mode of Enqueue adds exactly the new task and loses none. */
  lemma EnqueuedAddsTask(q: seq<int>, t: int, mode: EnqueueMode, keys: seq<int>)
    requires mode == EnqueueWithRearIdleTask ==> q == [] || IDLE_TASK in q
    requires mode == EnqueueSorted ==> Keyed(q, keys) && 0 <= t < |keys|
    ensures multiset(Enqueued(q, t, mode, keys)) == multiset(q) + multiset{t}
  {
    match mode
    case RegularEnqueue =>
    case EnqueueWithRearIdleTask => InsertBeforeIdleMultiset(q, t);
    case EnqueueSorted =>
      InsertSortedAt(q, t, keys);
      SpliceMultiset(q, SortedPosition(q, t, keys), t);
  }

  /** When a Dequeue in `mode` hands out nothing. */
  predicate DequeueRefused(q: seq<int>, mode: DequeueMode): (b: bool)
    ensures mode == RegularDequeue ==> (b <==> q == [])
    ensures !b ==> q != [] && (mode == DequeueWithRearIdleTask ==> q[0] != IDLE_TASK)
  {
    q == [] || (mode == DequeueWithRearIdleTask && q[0] == IDLE_TASK)
  }

  // ---------------------------------------------------------------------
  // Lemmas on the insertion policies
  // ---------------------------------------------------------------------

  /** Rear-idle insertion splices t in at the first idle task. */
  lemma {:induction false} InsertBeforeIdleAt(q: seq<int>, t: int)
    requires IDLE_TASK in q
    ensures InsertBeforeIdle(q, t) == Splice(q, IdleIndex(q), t)
  {
    if q[0] == IDLE_TASK {
      assert q[..0] == [] && q[0..] == q;
    } else {
      var r := q[1..];
      var m' := IdleIndex(r);
      assert IdleIndex(q) == m' + 1;
      calc {
        InsertBeforeIdle(q, t);
        [q[0]] + InsertBeforeIdle(r, t);
        { InsertBeforeIdleAt(r, t); }
        [q[0]] + (r[..m'] + [t] + r[m'..]);
        ([q[0]] + r[..m']) + [t] + r[m'..];
        { assert q[..m' + 1] == [q[0]] + r[..m'] && q[m' + 1..] == r[m'..]; }
        q[..m' + 1] + [t] + q[m' + 1..];
      }
    }
  }

  /** With idle pinned at the tail, t lands just before it and everything else keeps its order. */
  lemma {:induction false} InsertBeforeIdleKeepsIdleLast(rest: seq<int>, t: int)
    requires IDLE_TASK !in rest
    ensures InsertBeforeIdle(rest + [IDLE_TASK], t) == rest + [t, IDLE_TASK]
  {
    var q := rest + [IDLE_TASK];
    InsertBeforeIdleAt(q, t);
    assert IdleIndex(q) == |rest|;
    assert q[..|rest|] == rest;
  }

  /** Splicing behind the head of a non-empty queue splices into its tail. */
  lemma SpliceCons(q: seq<int>, p: int, t: int)
    requires q != [] && 0 <= p <= |q| - 1
    ensures Splice(q, p + 1, t) == [q[0]] + Splice(q[1..], p, t)
  {
    assert q[..p + 1] == [q[0]] + q[1..][..p] && q[p + 1..] == q[1..][p..];
  }

  /** Sorted insertion splices t in at `SortedPosition`. */
  lemma {:induction false} InsertSortedAt(q: seq<int>, t: int, keys: seq<int>)
    requires Keyed(q, keys) && 0 <= t < |keys|
    ensures InsertSorted(q, t, keys) == Splice(q, SortedPosition(q, t, keys), t)
  {
    if q == [] || keys[q[0]] > keys[t] {
      assert q[..0] == [] && q[0..] == q;
    } else {
      var r := q[1..];
      var p' := ScanPosition(r, t, keys);
      assert SortedPosition(q, t, keys) == p' + 1;
      InsertAfterHeadAt(r, t, keys);
      SpliceCons(q, p', t);
    }
  }

  lemma {:induction false} InsertAfterHeadAt(r: seq<int>, t: int, keys: seq<int>)
    requires Keyed(r, keys) && 0 <= t < |keys|
    ensures InsertAfterHead(r, t, keys) == Splice(r, ScanPosition(r, t, keys), t)
  {
    if r == [] || keys[r[0]] >= keys[t] {
      assert r[..0] == [] && r[0..] == r;
    } else {
      var r' := r[1..];
      var p' := ScanPosition(r', t, keys);
      assert ScanPosition(r, t, keys) == p' + 1;
      calc {
        InsertAfterHead(r, t, keys);
        [r[0]] + InsertAfterHead(r', t, keys);
        { InsertAfterHeadAt(r', t, keys); }
        [r[0]] + (r'[..p'] + [t] + r'[p'..]);
        ([r[0]] + r'[..p']) + [t] + r'[p'..];
        { assert r[..p' + 1] == [r[0]] + r'[..p'] && r[p' + 1..] == r'[p'..]; }
        r[..p' + 1] + [t] + r[p' + 1..];
      }
    }
  }

  /**
   * Tie placement of ENQUEUE_SORTED: t lands after a head with an equal key,
   * but ahead of every later element with an equal key.
   */
  lemma {:induction false} InsertSortedTies(q: seq<int>, t: int, keys: seq<int>, j: int)
    requires Keyed(q, keys) && 0 <= t < |keys|
    requires 0 <= j < |q| && keys[q[j]] == keys[t] && t !in q
    ensures |InsertSorted(q, t, keys)| == |q| + 1
    ensures j == 0 ==> InsertSorted(q, t, keys)[0] == q[0] != t
    ensures j > 0 ==> InsertSorted(q, t, keys)[j + 1] == q[j] && t in InsertSorted(q, t, keys)[..j + 1]
  {
    InsertSortedAt(q, t, keys);
    var p := SortedPosition(q, t, keys);
    var r := Splice(q, p, t);
    if j > 0 {
      assert p <= j;
      assert r[p] == t;
    }
  }

  /** Splicing adds exactly one element. */
  lemma {:induction false} SpliceMultiset(q: seq<int>, p: int, t: int)
    requires 0 <= p <= |q|
    ensures multiset(Splice(q, p, t)) == multiset(q) + multiset{t}
  {
    assert q == q[..p] + q[p..];
  }

  /** Splicing a new slot into a queue's sequence keeps its members distinct slots. */
  lemma {:induction false} SpliceMembers(q: seq<int>, p: int, t: int)
    requires Members(q) && 0 <= p <= |q| && IsTask(t) && t !in q
    ensures Members(Splice(q, p, t))
  {
    var r := Splice(q, p, t);
    forall i, j | 0 <= i < j < |r| ensures r[i] != r[j] {
      if i < p && j > p { assert r[j] == q[j - 1]; }
      else if i > p { assert r[i] == q[i - 1] && r[j] == q[j - 1]; }
      else if i == p && j > p { assert r[j] == q[j - 1]; }
      else if i < p && j == p { assert r[i] == q[i]; }
    }
  }

  /** The positions of a splice: before p unchanged, t at p, the rest shifted by one. */
  lemma {:induction false} SpliceIndex(q: seq<int>, p: int, t: int)
    requires 0 <= p <= |q|
    ensures |Splice(q, p, t)| == |q| + 1 && Splice(q, p, t)[p] == t
    ensures forall i :: 0 <= i < p ==> Splice(q, p, t)[i] == q[i]
    ensures forall i :: p < i <= |q| ==> Splice(q, p, t)[i] == q[i - 1]
  {
  }

  /** Splicing t in between the keys not above its own and those not below it keeps the order. */
  lemma {:induction false} SpliceSorted(q: seq<int>, p: int, t: int, keys: seq<int>)
    requires Keyed(q, keys) && 0 <= t < |keys| && SortedBy(q, keys) && 0 <= p <= |q|
    requires forall i :: 0 <= i < p ==> keys[q[i]] <= keys[t]
    requires forall i :: p <= i < |q| ==> keys[t] <= keys[q[i]]
    ensures Keyed(Splice(q, p, t), keys) && SortedBy(Splice(q, p, t), keys)
  {
    var r := Splice(q, p, t);
    SpliceIndex(q, p, t);
    forall i, j | 0 <= i < j < |r| ensures keys[r[i]] <= keys[r[j]] {
      if j < p {
        assert r[i] == q[i] && r[j] == q[j];
      } else if j == p {
        assert r[i] == q[i];
      } else if i < p {
        assert r[i] == q[i] && r[j] == q[j - 1];
      } else if i == p {
        assert r[j] == q[j - 1];
      } else {
        assert r[i] == q[i - 1] && r[j] == q[j - 1];
      }
    }
  }

  /** ENQUEUE_SORTED keeps a sorted queue sorted and adds exactly the new task. */
  lemma {:induction false} InsertSortedKeepsSorted(q: seq<int>, t: int, keys: seq<int>)
    requires Keyed(q, keys) && 0 <= t < |keys| && SortedBy(q, keys)
    ensures Keyed(InsertSorted(q, t, keys), keys)
    ensures SortedBy(InsertSorted(q, t, keys), keys)
    ensures multiset(InsertSorted(q, t, keys)) == multiset(q) + multiset{t}
  {
    InsertSortedAt(q, t, keys);
    var p := SortedPosition(q, t, keys);
    SpliceMultiset(q, p, t);
    // everything before the insertion point has a key not above t's
    assert forall i :: 0 <= i < p ==> keys[q[i]] <= keys[t];
    // everything from the insertion point on has a key not below t's
    forall i | p <= i < |q| ensures keys[t] <= keys[q[i]] {
      assert keys[t] <= keys[q[p]];
    }
    SpliceSorted(q, p, t, keys);
  }

  /** ENQUEUE_WITH_REAR_IDLE_TASK adds exactly the new task. */
  lemma {:induction false} InsertBeforeIdleMultiset(q: seq<int>, t: int)
    requires q == [] || IDLE_TASK in q
    ensures multiset(InsertBeforeIdle(q, t)) == multiset(q) + multiset{t}
  {
    if q != [] {
      InsertBeforeIdleAt(q, t);
      SpliceMultiset(q, IdleIndex(q), t);
    }
  }

  // ---------------------------------------------------------------------
  // Lemmas on the linked structure
  // ---------------------------------------------------------------------

  /** Links of slots outside a queue do not matter to it. */
  lemma {:induction false} IsQueueFrame(links: seq<int>, links': seq<int>, head: int, q: seq<int>)
    requires IsQueue(links, head, q) && |links'| == NUM_TASKS
    requires forall x :: x in q ==> links'[x] == links[x]
    ensures IsQueue(links', head, q)
  {
  }

  /** Dropping the head of a queue leaves the queue that starts at the head's successor. */
  lemma {:induction false} IsQueueTail(links: seq<int>, head: int, q: seq<int>)
    requires IsQueue(links, head, q) && q != []
    ensures IsQueue(links, links[head], q[1..])
  {
    var r := q[1..];
    forall i | 0 <= i < |r| - 1 ensures links[r[i]] == r[i + 1] {
      assert r[i] == q[i + 1] && r[i + 1] == q[i + 2];
    }
  }

  /**
   * The links after splicing t in at position p: the element before p (if
   * any) now points to t, and t points to the element at p, or NULL.
   */
  function Relinked(links: seq<int>, q: seq<int>, p: int, t: int): (r: seq<int>)
    requires |links| == NUM_TASKS && Members(q) && 0 <= p <= |q| && IsTask(t)
    ensures |r| == NUM_TASKS
  {
    var after := if p < |q| then q[p] else NULL;
    if p == 0 then links[t := after] else links[q[p - 1] := t][t := after]
  }

  /**
   * Relinking splices t into the list at p; only the links of t and of the
   * element before p change.
   */
  lemma {:induction false} SpliceIsQueue(links: seq<int>, head: int, q: seq<int>, p: int, t: int)
    requires IsQueue(links, head, q) && 0 <= p <= |q| && IsTask(t) && t !in q
    ensures IsQueue(Relinked(links, q, p, t), if p == 0 then t else head, Splice(q, p, t))
    ensures forall x :: 0 <= x < NUM_TASKS && x != t && x !in q ==> Relinked(links, q, p, t)[x] == links[x]
  {
    var links' := Relinked(links, q, p, t);
    var r := Splice(q, p, t);
    SpliceMembers(q, p, t);
    SpliceIndex(q, p, t);
    forall i | 0 <= i < |q| && i != p - 1 ensures links'[q[i]] == links[q[i]] {
      assert q[i] != t;
    }
    forall i | 0 <= i < |r| - 1 ensures links'[r[i]] == r[i + 1] {
      if i < p - 1 {
        assert links'[q[i]] == links[q[i]];
      } else if i > p {
        assert links'[q[i - 1]] == links[q[i - 1]];
      }
    }
    if p < |q| {
      assert links'[q[|q| - 1]] == links[q[|q| - 1]];
    }
  }

  /** Relinking at the first idle task carries out ENQUEUE_WITH_REAR_IDLE_TASK on the links. */
  lemma {:induction false} RelinkBeforeIdle(links: seq<int>, head: int, q: seq<int>, p: int, t: int)
    requires IsQueue(links, head, q) && IsTask(t) && t !in q && (q == [] || IDLE_TASK in q)
    requires p == if q == [] then 0 else IdleIndex(q)
    ensures IsQueue(Relinked(links, q, p, t), if p == 0 then t else head, InsertBeforeIdle(q, t))
    ensures forall x :: 0 <= x < NUM_TASKS && x != t && x !in q ==> Relinked(links, q, p, t)[x] == links[x]
  {
    SpliceIsQueue(links, head, q, p, t);
    if q != [] {
      InsertBeforeIdleAt(q, t);
    }
  }

  /** Relinking at the end carries out REGULAR_ENQUEUE on the links. */
  lemma {:induction false} RelinkAtRear(links: seq<int>, head: int, q: seq<int>, t: int)
    requires IsQueue(links, head, q) && IsTask(t) && t !in q
    ensures IsQueue(Relinked(links, q, |q|, t), if q == [] then t else head, q + [t])
    ensures forall x :: 0 <= x < NUM_TASKS && x != t && x !in q ==> Relinked(links, q, |q|, t)[x] == links[x]
  {
    SpliceIsQueue(links, head, q, |q|, t);
    assert Splice(q, |q|, t) == q + [t];
  }

  /** Relinking at the sorted position carries out ENQUEUE_SORTED on the links. */
  lemma {:induction false} RelinkSorted(links: seq<int>, head: int, q: seq<int>, p: int, t: int, keys: seq<int>)
    requires IsQueue(links, head, q) && IsTask(t) && t !in q && Keyed(q, keys) && t < |keys|
    requires p == SortedPosition(q, t, keys)
    ensures IsQueue(Relinked(links, q, p, t), if p == 0 then t else head, InsertSorted(q, t, keys))
    ensures forall x :: 0 <= x < NUM_TASKS && x != t && x !in q ==> Relinked(links, q, p, t)[x] == links[x]
  {
    SpliceIsQueue(links, head, q, p, t);
    InsertSortedAt(q, t, keys);
  }

  // ---------------------------------------------------------------------
  // Enqueue and Dequeue
  // ---------------------------------------------------------------------

  /**
   * Enqueue(pHead, pTask, EnqueueMode): inserts `task` into the queue that
   * starts at `head` and returns the new head (`*pHead`). Only the `next`
   * fields of `task` and of queue members change.
   */
  method Enqueue(next: array<int>, taskId: array<int>, blockCount: array<int>,
                 head: int, task: int, mode: EnqueueMode, ghost q: seq<int>)
    returns (head': int)
    requires Arena(next, taskId, blockCount)
    requires IsQueue(next[..], head, q) && IsTask(task) && task !in q
    // the loop at queue.c:54 dereferences NULL when idle is missing
    requires mode == EnqueueWithRearIdleTask ==> q == [] || IDLE_TASK in q
    modifies next
    ensures Keyed(q, blockCount[..])
    ensures IsQueue(next[..], head', Enqueued(q, task, mode, blockCount[..]))
    ensures forall x :: 0 <= x < NUM_TASKS && x != task && x !in q ==> next[x] == old(next[x])
  {
    if mode == EnqueueWithRearIdleTask {
      head' := EnqueueBeforeIdle(next, taskId, head, task, q);
    } else if mode == RegularEnqueue {
      head' := EnqueueAtRear(next, head, task, q);
    } else {
      head' := EnqueueByBlockCount(next, blockCount, head, task, q);
    }
  }

  /** The ENQUEUE_WITH_REAR_IDLE_TASK branch of Enqueue. */
  method EnqueueBeforeIdle(next: array<int>, taskId: array<int>, head: int, task: int, ghost q: seq<int>)
    returns (head': int)
    requires next.Length == NUM_TASKS && next != taskId && Identified(taskId[..])
    requires IsQueue(next[..], head, q) && IsTask(task) && task !in q
    requires q == [] || IDLE_TASK in q
    modifies next
    ensures IsQueue(next[..], head', InsertBeforeIdle(q, task))
    ensures forall x :: 0 <= x < NUM_TASKS && x != task && x !in q ==> next[x] == old(next[x])
  {
    ghost var links := next[..];
    ghost var p: int;
    if head == NULL {
      head' := task;
      next[task] := NULL;
      p := 0;
    } else if taskId[head] == IDLE_TASK {
      next[task] := head;
      head' := task;
      p := 0;
    } else {
      var iter := SeekBeforeIdle(next, taskId, head, q);
      var temp := next[iter];
      next[iter] := task;
      next[task] := temp;
      head' := head;
      p := IdleIndex(q);
    }
    assert next[..] == Relinked(links, q, p, task);
    RelinkBeforeIdle(links, head, q, p, task);
    forall x | 0 <= x < NUM_TASKS && x != task && x !in q ensures next[x] == links[x] {
      assert next[x] == Relinked(links, q, p, task)[x];
    }
  }

  /**
   * The walk of ENQUEUE_WITH_REAR_IDLE_TASK over a queue whose head is not
   * idle: it stops at the task whose successor is idle.
   */
  method SeekBeforeIdle(next: array<int>, taskId: array<int>, head: int, ghost q: seq<int>)
    returns (iter: int)
    requires next.Length == NUM_TASKS && Identified(taskId[..])
    requires IsQueue(next[..], head, q) && IDLE_TASK in q && q[0] != IDLE_TASK
    ensures 0 < IdleIndex(q) && iter == q[IdleIndex(q) - 1] && next[iter] == IDLE_TASK
  {
    ghost var m := IdleIndex(q);
    iter := head;
    ghost var k := 0;
    while taskId[next[iter]] != IDLE_TASK
      invariant 0 <= k < m && iter == q[k] && next[iter] == q[k + 1]
      decreases m - k
    {
      iter := next[iter];
      k := k + 1;
    }
    assert k + 1 == m;
  }

  /** The REGULAR_ENQUEUE branch of Enqueue: append at the rear. */
  method EnqueueAtRear(next: array<int>, head: int, task: int, ghost q: seq<int>)
    returns (head': int)
    requires next.Length == NUM_TASKS
    requires IsQueue(next[..], head, q) && IsTask(task) && task !in q
    modifies next
    ensures IsQueue(next[..], head', q + [task])
    ensures forall x :: 0 <= x < NUM_TASKS && x != task && x !in q ==> next[x] == old(next[x])
  {
    ghost var links := next[..];
    if head == NULL {
      head' := task;
      next[task] := NULL;
    } else {
      var iter := head;
      ghost var k := 0;
      while next[iter] != NULL
        invariant 0 <= k < |q| && iter == q[k]
        invariant k < |q| - 1 ==> next[iter] == q[k + 1] && IsTask(q[k + 1])
        invariant next[..] == links
        decreases |q| - k
      {
        iter := next[iter];
        k := k + 1;
      }
      assert k == |q| - 1;
      next[iter] := task;
      next[task] := NULL;
      head' := head;
    }
    assert next[..] == Relinked(links, q, |q|, task);
    RelinkAtRear(links, head, q, task);
    forall x | 0 <= x < NUM_TASKS && x != task && x !in q ensures next[x] == links[x] {
      assert next[x] == Relinked(links, q, |q|, task)[x];
    }
  }

  /** The ENQUEUE_SORTED branch of Enqueue: ordered by block count. */
  method EnqueueByBlockCount(next: array<int>, blockCount: array<int>, head: int, task: int, ghost q: seq<int>)
    returns (head': int)
    requires next.Length == NUM_TASKS && blockCount.Length == NUM_TASKS && next != blockCount
    requires IsQueue(next[..], head, q) && IsTask(task) && task !in q
    modifies next
    ensures Keyed(q, blockCount[..])
    ensures IsQueue(next[..], head', InsertSorted(q, task, blockCount[..]))
    ensures forall x :: 0 <= x < NUM_TASKS && x != task && x !in q ==> next[x] == old(next[x])
  {
    ghost var links := next[..];
    ghost var keys := blockCount[..];
    ghost var p := SortedPosition(q, task, keys);
    if head == NULL {
      head' := task;
      next[task] := NULL;
    } else if blockCount[head] > blockCount[task] {
      next[task] := head;
      head' := task;
    } else {
      LinkAfterHead(next, blockCount, head, task, q);
      head' := head;
    }
    assert next[..] == Relinked(links, q, p, task);
    RelinkSorted(links, head, q, p, task, keys);
    forall x | 0 <= x < NUM_TASKS && x != task && x !in q ensures next[x] == links[x] {
      assert next[x] == Relinked(links, q, p, task)[x];
    }
  }

  /**
   * The scan of ENQUEUE_SORTED behind a head whose key is not above the new
   * task's: it links the task in before the first later element whose key
   * is not below its own, or at the end.
   */
  method LinkAfterHead(next: array<int>, blockCount: array<int>, head: int, task: int, ghost q: seq<int>)
    requires next.Length == NUM_TASKS && blockCount.Length == NUM_TASKS && next != blockCount
    requires IsQueue(next[..], head, q) && IsTask(task) && task !in q
    requires q != [] && blockCount[head] <= blockCount[task]
    modifies next
    ensures 0 < SortedPosition(q, task, blockCount[..])
    ensures next[..] == Relinked(old(next[..]), q, SortedPosition(q, task, blockCount[..]), task)
  {
    ghost var links := next[..];
    ghost var keys := blockCount[..];
    var prev := head;
    var iter := next[head];
    ghost var k := 1;
    while iter != NULL
      invariant 1 <= k <= |q| && prev == q[k - 1]
      invariant k < |q| ==> iter == q[k]
      invariant k == |q| ==> iter == NULL
      invariant forall j :: 1 <= j < k ==> keys[q[j]] < keys[task]
      invariant next[..] == links
      decreases |q| - k
    {
      if blockCount[iter] < blockCount[task] {
        prev := iter;
        iter := next[iter];
        k := k + 1;
      } else {
        next[prev] := task;
        next[task] := iter;
        break;
      }
    }
    if iter == NULL {
      next[prev] := task;
      next[task] := NULL;
    }
    SortedPositionUnique(q, task, keys, k);
  }

  /**
   * Dequeue(pHead, DequeueMode): hands out the head and returns the new head
   * (`*pHead`) beside it. No `next` field changes, not even the one of the
   * task handed out. An empty queue, and in DEQUEUE_WITH_REAR_IDLE_TASK mode
   * an idle head, give NULL and leave the head where it was.
   */
  method Dequeue(next: array<int>, taskId: array<int>, head: int, mode: DequeueMode, ghost q: seq<int>)
    returns (head': int, task: int)
    requires next.Length == NUM_TASKS && Identified(taskId[..])
    requires IsQueue(next[..], head, q)
    ensures DequeueRefused(q, mode) ==> task == NULL && head' == head
    ensures !DequeueRefused(q, mode) ==> task == q[0] && IsQueue(next[..], head', q[1..])
    ensures mode == DequeueWithRearIdleTask ==> task != IDLE_TASK
  {
    if mode == DequeueWithRearIdleTask {
      if head == NULL {
        head', task := head, NULL;
      } else if taskId[head] == IDLE_TASK {
        head', task := head, NULL;
      } else {
        task := head;
        head' := next[head];
        IsQueueTail(next[..], head, q);
      }
    } else {
      if head == NULL {
        head', task := head, NULL;
      } else {
        task := head;
        head' := next[head];
        IsQueueTail(next[..], head, q);
      }
    }
  }
}
