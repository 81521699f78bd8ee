/** Per-key promise chains: an operation waits for the one its key's tail named when it was
    called, and the caller removes the tail entry afterwards if it is still its own. */
module SerialQueue {
  import opened Prelude

  type Key = string

  datatype Phase = Queued | Running | Settled

  datatype Op = Op(key: Key, previous: Option<nat>, phase: Phase, cleaned: bool)

  /** All operations in call order, and the map of tails. */
  datatype Queue = Queue(ops: seq<Op>, tails: map<Key, nat>)

  const Empty := Queue([], map[])

  function Enqueue(q: Queue, key: Key): Queue {
    var previous := if key in q.tails then Some(q.tails[key]) else None;
    Queue(q.ops + [Op(key, previous, Queued, false)], q.tails[key := |q.ops|])
  }

  /** The promise the operation waits for has settled, successfully or not. */
  predicate Ready(q: Queue, i: nat) {
    && i < |q.ops| && q.ops[i].phase.Queued?
    && (q.ops[i].previous.Some? ==>
          q.ops[i].previous.value < |q.ops| && q.ops[q.ops[i].previous.value].phase.Settled?)
  }

  function Start(q: Queue, i: nat): Queue
    requires Ready(q, i)
  {
    q.(ops := q.ops[i := q.ops[i].(phase := Running)])
  }

  predicate Active(q: Queue, i: nat) {
    i < |q.ops| && q.ops[i].phase.Running?
  }

  function Settle(q: Queue, i: nat): Queue
    requires Active(q, i)
  {
    q.(ops := q.ops[i := q.ops[i].(phase := Settled)])
  }

  predicate Cleanable(q: Queue, i: nat) {
    i < |q.ops| && q.ops[i].phase.Settled? && !q.ops[i].cleaned
  }

  function Clean(q: Queue, i: nat): Queue
    requires Cleanable(q, i)
  {
    var key := q.ops[i].key;
    Queue(q.ops[i := q.ops[i].(cleaned := true)],
          if key in q.tails && q.tails[key] == i then q.tails - {key} else q.tails)
  }

  // ---- what every queue keeps ----

  /** Operations of one key that were called before `i` have all settled. */
  predicate EarlierSettled(q: Queue, i: nat)
    requires i < |q.ops|
  {
    forall j :: 0 <= j < i && q.ops[j].key == q.ops[i].key ==> q.ops[j].phase.Settled?
  }

  predicate LastOfKey(q: Queue, i: nat)
    requires i < |q.ops|
  {
    forall j :: i < j < |q.ops| ==> q.ops[j].key != q.ops[i].key
  }

  /** The promise of operation `i` is the operation before it under its key, or none is left. */
  predicate PreviousOk(q: Queue, i: nat)
    requires i < |q.ops|
  {
    match q.ops[i].previous
    case None => EarlierSettled(q, i)
    case Some(p) => p < i && q.ops[p].key == q.ops[i].key && forall j :: p < j < i ==> q.ops[j].key != q.ops[i].key
  }

  predicate OpOk(q: Queue, i: nat)
    requires i < |q.ops|
  {
    var op := q.ops[i];
    && PreviousOk(q, i)
    && (!op.phase.Queued? ==> EarlierSettled(q, i))
    && (op.cleaned ==> op.phase.Settled?)
    && (LastOfKey(q, i) && !op.cleaned ==> op.key in q.tails && q.tails[op.key] == i)
  }

  predicate TailOk(q: Queue, key: Key) {
    key in q.tails ==>
      var i := q.tails[key];
      i < |q.ops| && q.ops[i].key == key && LastOfKey(q, i) && !q.ops[i].cleaned
  }

  ghost predicate Inv(q: Queue) {
    && (forall i {:trigger OpOk(q, i)} :: 0 <= i < |q.ops| ==> OpOk(q, i))
    && (forall key {:trigger TailOk(q, key)} :: TailOk(q, key))
  }

  /** Without a tail entry every operation of the key has settled. */
  lemma NoTailMeansSettled(q: Queue, key: Key, i: nat)
    requires Inv(q) && key !in q.tails && i < |q.ops| && q.ops[i].key == key
    ensures q.ops[i].phase.Settled?
  {
    var last := LastWithKey(q, i);
    assert OpOk(q, last);
  }

  lemma LastWithKey(q: Queue, i: nat) returns (last: nat)
    requires i < |q.ops|
    ensures i <= last < |q.ops| && q.ops[last].key == q.ops[i].key && LastOfKey(q, last)
  {
    last := i;
    var j := i + 1;
    while j < |q.ops|
      invariant i <= last < j <= |q.ops| && q.ops[last].key == q.ops[i].key
      invariant forall k :: last < k < j ==> q.ops[k].key != q.ops[i].key
    {
      if q.ops[j].key == q.ops[i].key {
        last := j;
      }
      j := j + 1;
    }
  }

  lemma EnqueueOld(q: Queue, key: Key, i: nat)
    requires Inv(q) && i < |q.ops|
    ensures OpOk(Enqueue(q, key), i)
  {
    var q' := Enqueue(q, key);
    assert OpOk(q, i);
    assert q'.ops[|q.ops|].key == key;
    assert forall j :: 0 <= j < |q.ops| ==> q'.ops[j] == q.ops[j];
    assert LastOfKey(q', i) ==> LastOfKey(q, i);
  }

  lemma EnqueueNew(q: Queue, key: Key)
    requires Inv(q)
    ensures OpOk(Enqueue(q, key), |q.ops|)
  {
    var q' := Enqueue(q, key);
    assert forall j :: 0 <= j < |q.ops| ==> q'.ops[j] == q.ops[j];
    if key in q.tails {
      assert TailOk(q, key);
    } else {
      forall i | 0 <= i < |q.ops| && q.ops[i].key == key ensures q.ops[i].phase.Settled? {
        NoTailMeansSettled(q, key, i);
      }
    }
  }

  lemma EnqueueKeepsInv(q: Queue, key: Key)
    requires Inv(q)
    ensures Inv(Enqueue(q, key))
  {
    var q' := Enqueue(q, key);
    forall i | 0 <= i < |q'.ops| ensures OpOk(q', i) {
      if i < |q.ops| {
        EnqueueOld(q, key, i);
      } else {
        EnqueueNew(q, key);
      }
    }
    forall k ensures TailOk(q', k) {
      assert TailOk(q, k);
    }
  }

  /** A queued operation whose predecessor has settled comes after settled operations only. */
  lemma ReadyMeansEarlierSettled(q: Queue, i: nat)
    requires Inv(q) && Ready(q, i)
    ensures EarlierSettled(q, i)
  {
    assert OpOk(q, i);
    if q.ops[i].previous.Some? {
      assert OpOk(q, q.ops[i].previous.value);
    }
  }

  lemma StartKeepsInv(q: Queue, i: nat)
    requires Inv(q) && Ready(q, i)
    ensures Inv(Start(q, i))
  {
    ReadyMeansEarlierSettled(q, i);
    PhaseChange(q, i, Running);
  }

  lemma SettleKeepsInv(q: Queue, i: nat)
    requires Inv(q) && Active(q, i)
    ensures Inv(Settle(q, i))
  {
    assert OpOk(q, i);
    PhaseChange(q, i, Settled);
  }

  /** Moving one operation forward, when everything before it under its key has settled. */
  lemma PhaseChange(q: Queue, i: nat, phase: Phase)
    requires Inv(q) && i < |q.ops| && !q.ops[i].phase.Settled? && !phase.Queued? && EarlierSettled(q, i)
    ensures Inv(q.(ops := q.ops[i := q.ops[i].(phase := phase)]))
  {
    var q' := q.(ops := q.ops[i := q.ops[i].(phase := phase)]);
    forall k | 0 <= k < |q'.ops| ensures OpOk(q', k) {
      assert OpOk(q, k) && OpOk(q, i);
      SameShape(q, q', k);
    }
    forall key ensures TailOk(q', key) {
      assert TailOk(q, key);
      if key in q.tails {
        SameShape(q, q', q.tails[key]);
      }
    }
  }

  /** Phases may only advance; keys and predecessors stay. */
  predicate Advances(q: Queue, q': Queue) {
    && |q'.ops| == |q.ops|
    && forall j :: 0 <= j < |q.ops| ==>
         q'.ops[j].key == q.ops[j].key && q'.ops[j].previous == q.ops[j].previous
         && (q.ops[j].phase.Settled? ==> q'.ops[j].phase.Settled?)
  }

  lemma SameShape(q: Queue, q': Queue, k: nat)
    requires Advances(q, q') && k < |q.ops|
    ensures EarlierSettled(q, k) ==> EarlierSettled(q', k)
    ensures LastOfKey(q', k) == LastOfKey(q, k)
    ensures PreviousOk(q, k) ==> PreviousOk(q', k)
  {}

  lemma CleanKeepsInv(q: Queue, i: nat)
    requires Inv(q) && Cleanable(q, i)
    ensures Inv(Clean(q, i))
  {
    var q' := Clean(q, i);
    forall k | 0 <= k < |q'.ops| ensures OpOk(q', k) {
      assert OpOk(q, k);
      SameShape(q, q', k);
    }
    forall key ensures TailOk(q', key) {
      assert TailOk(q, key);
      if key in q'.tails {
        SameShape(q, q', q.tails[key]);
      }
    }
  }

  /** Operations of one key run one at a time and in call order. */
  lemma OneAtATimeInOrder(q: Queue, i: nat, j: nat)
    requires Inv(q) && i < j < |q.ops| && q.ops[i].key == q.ops[j].key && !q.ops[j].phase.Queued?
    ensures q.ops[i].phase.Settled?
  {
    assert OpOk(q, j);
  }

  lemma CleanedMeansNoTails(q: Queue)
    requires Inv(q) && forall i :: 0 <= i < |q.ops| ==> q.ops[i].cleaned
    ensures q.tails == map[]
  {
    forall key ensures key !in q.tails {
      assert TailOk(q, key);
    }
  }

  /** Behind every operation that has not settled there is one of the same key that can go on. */
  lemma SomeoneCanGoOn(q: Queue, i: nat) returns (first: nat)
    requires Inv(q) && i < |q.ops| && !q.ops[i].phase.Settled?
    ensures first <= i && q.ops[first].key == q.ops[i].key && (Ready(q, first) || Active(q, first))
  {
    first := 0;
    while q.ops[first].key != q.ops[i].key || q.ops[first].phase.Settled?
      invariant first <= i
      invariant forall j :: 0 <= j < first && q.ops[j].key == q.ops[i].key ==> q.ops[j].phase.Settled?
      decreases i - first
    {
      first := first + 1;
    }
    assert OpOk(q, first);
  }
}
