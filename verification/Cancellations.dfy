/** `processCancellations`: the pending requests, one after the other. */
module Cancellations {
  import opened Prelude

  type Id = string

  type Reference = string

  datatype Request = Request(id: Id, externalRef: Option<Reference>)

  /** A session found by a probe; `parsed` is its reference when that is a compact one. */
  datatype Probe = ProbeRejects | Absent | Inconclusive | Found(parsed: Option<Reference>)

  datatype Abort = AbortRejects | NotAborted | Confirmed

  /** What the store and the adapter answer while one request is handled. */
  datatype Answers = Answers(known: Option<Reference>, hasCommand: bool, probe: Probe, persisted: bool,
                             abort: Abort, acknowledged: bool)

  /** The calls that matter, in order. */
  datatype Event =
    | ProbedAbsent(id: Id)
    | Persisted(id: Id, reference: Reference)
    | Aborted(id: Id, reference: Reference, confirmed: bool)
    | Acknowledged(id: Id)

  function Last(log: seq<Event>, k: nat): Option<Event>
    requires k <= |log|
  {
    if k == 0 then None else Some(log[k - 1])
  }

  predicate ConfirmsAbort(e: Event, id: Id) {
    e.Aborted? && e.id == id && e.confirmed
  }

  /** An abort uses a reference that is durable: the request carries it, or it was persisted for
      the request just before. An acknowledgement follows an absent probe or a confirmed abort. */
  ghost predicate EventOk(pending: seq<Request>, log: seq<Event>, k: nat)
    requires k < |log|
  {
    match log[k]
    case Aborted(id, reference, _) =>
      Request(id, Some(reference)) in pending || Last(log, k) == Some(Persisted(id, reference))
    case Acknowledged(id) =>
      Last(log, k).Some? && (Last(log, k).value == ProbedAbsent(id) || ConfirmsAbort(Last(log, k).value, id))
    case _ => true
  }

  ghost predicate LogOk(pending: seq<Request>, log: seq<Event>) {
    forall k :: 0 <= k < |log| ==> EventOk(pending, log, k)
  }

  /** The reference an abort would use, once it is durable. */
  function DurableReference(request: Request, a: Answers): Option<Reference> {
    if request.externalRef.Some? then request.externalRef
    else if a.known.Some? then (if a.persisted then a.known else None)
    else if a.hasCommand && a.probe.Found? && a.persisted then a.probe.parsed
    else None
  }

  /** No trace of a session anywhere: no reference, and the probe of its key found none. */
  predicate NothingToAbort(request: Request, a: Answers) {
    request.externalRef.None? && a.known.None? && a.hasCommand && a.probe.Absent?
  }

  predicate Concluded(request: Request, a: Answers) {
    (NothingToAbort(request, a) || (DurableReference(request, a).Some? && a.abort.Confirmed?)) && a.acknowledged
  }

  /** The ids of the requests that conclude, in order. */
  function ConcludedIds(pending: seq<Request>, answers: seq<Answers>): seq<Id>
    requires |pending| == |answers|
  {
    if pending == [] then [] else
      var n := |pending| - 1;
      ConcludedIds(pending[..n], answers[..n]) + (if Concluded(pending[n], answers[n]) then [pending[n].id] else [])
  }

  /** The requests among them that conclude because a session was aborted. */
  function AbortedCount(pending: seq<Request>, answers: seq<Answers>): nat
    requires |pending| == |answers|
  {
    if pending == [] then 0 else
      var n := |pending| - 1;
      AbortedCount(pending[..n], answers[..n])
      + (if Concluded(pending[n], answers[n]) && !NothingToAbort(pending[n], answers[n]) then 1 else 0)
  }

  /** The ids acknowledged in the store, in order. */
  function AcknowledgedIds(log: seq<Event>): seq<Id> {
    if log == [] then [] else
      var last := log[|log| - 1];
      AcknowledgedIds(log[..|log| - 1]) + (if last.Acknowledged? then [last.id] else [])
  }

  lemma AcknowledgedSnoc(log: seq<Event>, e: Event)
    ensures AcknowledgedIds(log + [e]) == AcknowledgedIds(log) + (if e.Acknowledged? then [e.id] else [])
  {
    assert (log + [e])[..|log + [e]| - 1] == log;
  }

  class Batch {
    var aborted: nat
    var acknowledged: nat
    var failed: nat
    var log: seq<Event>

    constructor ()
      ensures aborted == acknowledged == failed == 0 && log == []
    {
      aborted, acknowledged, failed, log := 0, 0, 0, [];
    }

    ghost predicate Valid(pending: seq<Request>)
      reads this
    {
      LogOk(pending, log) && |AcknowledgedIds(log)| == acknowledged && aborted <= acknowledged
    }

    method Note(pending: seq<Request>, e: Event)
      requires LogOk(pending, log) && EventOk(pending, log + [e], |log|)
      modifies `log
      ensures log == old(log) + [e] && LogOk(pending, log)
      ensures AcknowledgedIds(log) == AcknowledgedIds(old(log)) + (if e.Acknowledged? then [e.id] else [])
    {
      AcknowledgedSnoc(log, e);
      forall k | 0 <= k < |log| ensures EventOk(pending, log + [e], k) {
        assert EventOk(pending, log, k);
      }
      log := log + [e];
    }

    /** Acknowledging counts once, whether the store takes it or throws. */
    method Acknowledge(pending: seq<Request>, request: Request, taken: bool)
      requires Valid(pending) && EventOk(pending, log + [Acknowledged(request.id)], |log|)
      modifies this
      ensures Valid(pending) && aborted == old(aborted)
      ensures acknowledged + failed == old(acknowledged + failed) + 1
      ensures AcknowledgedIds(log) == old(AcknowledgedIds(log)) + (if taken then [request.id] else [])
    {
      if taken {
        Note(pending, Acknowledged(request.id));
        acknowledged := acknowledged + 1;
      } else {
        failed := failed + 1;
      }
    }

    method Abort(pending: seq<Request>, request: Request, reference: Reference, a: Answers)
      requires Valid(pending)
      requires Request(request.id, Some(reference)) in pending
        || Last(log, |log|) == Some(Persisted(request.id, reference))
      modifies this
      ensures Valid(pending)
      ensures acknowledged + failed == old(acknowledged + failed) + 1
      ensures aborted == old(aborted) + (if a.abort.Confirmed? && a.acknowledged then 1 else 0)
      ensures AcknowledgedIds(log) ==
        old(AcknowledgedIds(log)) + (if a.abort.Confirmed? && a.acknowledged then [request.id] else [])
    {
      if a.abort.AbortRejects? {
        failed := failed + 1;
        return;
      }
      Note(pending, Aborted(request.id, reference, a.abort.Confirmed?));
      if a.abort.Confirmed? {
        Acknowledge(pending, request, a.acknowledged);
        if a.acknowledged {
          aborted := aborted + 1;
        }
      } else {
        failed := failed + 1;
      }
    }

    /** One turn of the loop. */
    method Process(pending: seq<Request>, request: Request, a: Answers)
      requires Valid(pending) && request in pending
      modifies this
      ensures Valid(pending)
      ensures acknowledged + failed == old(acknowledged + failed) + 1
      ensures aborted == old(aborted) + (if Concluded(request, a) && !NothingToAbort(request, a) then 1 else 0)
      ensures AcknowledgedIds(log) ==
        old(AcknowledgedIds(log)) + (if Concluded(request, a) then [request.id] else [])
    {
      var reference := if request.externalRef.Some? then request.externalRef else a.known;
      if reference.None? {
        if !a.hasCommand || a.probe.ProbeRejects? {
          failed := failed + 1;
          return;
        }
        if a.probe.Absent? {
          Note(pending, ProbedAbsent(request.id));
          Acknowledge(pending, request, a.acknowledged);
          return;
        }
        if a.probe.Inconclusive? || a.probe.parsed.None? || !a.persisted {
          failed := failed + 1;
          return;
        }
        reference := a.probe.parsed;
        Note(pending, Persisted(request.id, reference.value));
      } else if request.externalRef.None? {
        if !a.persisted {
          failed := failed + 1;
          return;
        }
        Note(pending, Persisted(request.id, reference.value));
      }
      Abort(pending, request, reference.value, a);
    }

    /** Every pending request is acknowledged or failed, never both; the store is told exactly
        about those that concluded. */
    method ProcessAll(pending: seq<Request>, answers: seq<Answers>)
      requires |pending| == |answers| && aborted == acknowledged == failed == 0 && log == []
      modifies this
      ensures acknowledged + failed == |pending|
      ensures aborted == AbortedCount(pending, answers) <= acknowledged
      ensures AcknowledgedIds(log) == ConcludedIds(pending, answers) && acknowledged == |ConcludedIds(pending, answers)|
      ensures AllEvidenced(pending, log)
    {
      var i := 0;
      while i < |pending|
        invariant 0 <= i <= |pending| && Valid(pending)
        invariant acknowledged + failed == i && aborted == AbortedCount(pending[..i], answers[..i])
        invariant AcknowledgedIds(log) == ConcludedIds(pending[..i], answers[..i])
      {
        Process(pending, pending[i], answers[i]);
        i := i + 1;
        assert pending[..i][..i - 1] == pending[..i - 1] && answers[..i][..i - 1] == answers[..i - 1];
      }
      assert pending[..i] == pending && answers[..i] == answers;
      EveryAcknowledgementIsEvidenced(pending, log);
    }
  }

  /** The store was told of a conclusion only after an absent probe or after an abort, confirmed
      for this request, of a reference that was durable before the abort. */
  predicate Evidenced(pending: seq<Request>, log: seq<Event>, k: nat)
    requires k < |log| && log[k].Acknowledged?
  {
    && k > 0 && (log[k - 1] == ProbedAbsent(log[k].id) || ConfirmsAbort(log[k - 1], log[k].id))
    && (log[k - 1].Aborted? ==>
          || Request(log[k].id, Some(log[k - 1].reference)) in pending
          || (k > 1 && log[k - 2] == Persisted(log[k].id, log[k - 1].reference)))
  }

  ghost predicate AllEvidenced(pending: seq<Request>, log: seq<Event>) {
    forall k :: 0 <= k < |log| && log[k].Acknowledged? ==> Evidenced(pending, log, k)
  }

  lemma AcknowledgedWithEvidence(pending: seq<Request>, log: seq<Event>, k: nat)
    requires LogOk(pending, log) && k < |log| && log[k].Acknowledged?
    ensures Evidenced(pending, log, k)
  {
    assert EventOk(pending, log, k) && EventOk(pending, log, k - 1);
  }

  lemma EveryAcknowledgementIsEvidenced(pending: seq<Request>, log: seq<Event>)
    requires LogOk(pending, log)
    ensures AllEvidenced(pending, log)
  {
    forall k | 0 <= k < |log| && log[k].Acknowledged? ensures Evidenced(pending, log, k) {
      AcknowledgedWithEvidence(pending, log, k);
    }
  }
}
