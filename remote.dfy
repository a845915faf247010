/** The controller as the cleanup sees it: the requests it issues, what each
    one gets back, and the loop that issues one DELETE per planned entry. */
module Remote {

  /** The resource collections the cleanup lists or deletes from. */
  datatype Kind = SubPool | GlobalPool | Site | Floor | Building | Area

  /** `GET` of a collection, or `DELETE` of one resource by id. */
  datatype Request = Get(kind: Kind) | Delete(kind: Kind, id: string)

  /** What a DELETE gets back: an HTTP status, or a transport failure
      (`requests.exceptions.RequestException`). */
  datatype Reply = Status(code: int) | TransportError

  /** What a GET gets back: a status and the decoded records, or a transport
      failure. */
  datatype Listing<T> = Listed(code: int, records: seq<T>) | Unreachable

  /** How the script classifies one request's result. */
  datatype Outcome = Succeeded | Failed(code: int) | TransportFailure

  /** One issued request and its classified result. */
  datatype Call = Call(req: Request, outcome: Outcome)

  /** One planned deletion: the collection, the name the script reports and
      the id it deletes. */
  datatype Target = Target(kind: Kind, name: string, id: string)

  /** Status of a listing that succeeded. */
  const OK := 200
  /** Status of a deletion the controller accepted. */
  const ACCEPTED := 202

  /** The gate in front of every DELETE loop: the listing arrived with
      status 200, so its records can be read. */
  predicate ListedOk<T>(l: Listing<T>)
  {
    l.Listed? && l.code == OK
  }

  /** How the script reports a listing: success exactly when the gate opens,
      a failure with the status otherwise, and a raise when it never came. */
  function ListOutcome<T>(l: Listing<T>): (o: Outcome)
    ensures o == Succeeded <==> ListedOk(l)
    ensures o == TransportFailure <==> l.Unreachable?
    ensures o.Failed? ==> l.Listed? && o.code == l.code && o.code != OK
  {
    match l
    case Listed(code, _) => if code == OK then Succeeded else Failed(code)
    case Unreachable => TransportFailure
  }

  /** How the script reports a DELETE: success exactly on 202, a failure
      with the status on any other status, and a raise on a transport
      failure. */
  function DeleteOutcome(r: Reply): (o: Outcome)
    ensures o == Succeeded <==> r == Status(ACCEPTED)
    ensures o == TransportFailure <==> r == TransportError
    ensures o.Failed? ==> r.Status? && o.code == r.code && o.code != ACCEPTED
  {
    match r
    case Status(code) => if code == ACCEPTED then Succeeded else Failed(code)
    case TransportError => TransportFailure
  }

  function DeleteRequest(t: Target): Request {
    Delete(t.kind, t.id)
  }

  /** The calls a DELETE loop over `plan` issues when the controller answers
      with `net`: one per target, in plan order; a failure status is reported
      and the loop goes on, a transport failure raises out of it. */
  function DeleteRun(plan: seq<Target>, net: Request -> Reply): (calls: seq<Call>)
    ensures |calls| <= |plan|
  {
    if plan == [] then []
    else
      var call := Call(DeleteRequest(plan[0]), DeleteOutcome(net(DeleteRequest(plan[0]))));
      if call.outcome == TransportFailure then [call] else [call] + DeleteRun(plan[1..], net)
  }

  /** The run ended early, by a transport failure. */
  predicate Aborted(calls: seq<Call>) {
    calls != [] && calls[|calls| - 1].outcome == TransportFailure
  }

  /** Call `i` of a run is the DELETE of plan entry `i`, classified by its
      reply (success exactly on 202); only a transport failure ends the run
      before the plan does, and only at the last call. */
  lemma {:induction false} DeleteRunFollowsPlan(plan: seq<Target>, net: Request -> Reply)
    ensures var calls := DeleteRun(plan, net);
      && (forall i :: 0 <= i < |calls| ==>
            && calls[i].req == Delete(plan[i].kind, plan[i].id)
            && (calls[i].outcome == Succeeded <==> net(calls[i].req) == Status(ACCEPTED))
            && (calls[i].outcome == TransportFailure <==> net(calls[i].req) == TransportError)
            && (net(calls[i].req).Status? && net(calls[i].req).code != ACCEPTED ==>
                  calls[i].outcome == Failed(net(calls[i].req).code)))
      && (forall i :: 0 <= i < |calls| - 1 ==> calls[i].outcome != TransportFailure)
      && (|calls| < |plan| ==> Aborted(calls))
  {
    if plan != [] {
      DeleteRunFollowsPlan(plan[1..], net);
    }
  }

  /** Deleting resources that no longer exist (or failing for any other
      status) never shortens the run: when no DELETE of the plan meets a
      transport failure, every entry is attempted, and the run succeeds
      exactly on the 202 replies. */
  lemma StatusFailuresDoNotShortenRun(plan: seq<Target>, net: Request -> Reply)
    requires forall t :: t in plan ==> net(DeleteRequest(t)).Status?
    ensures |DeleteRun(plan, net)| == |plan|
    ensures forall i :: 0 <= i < |plan| ==>
      (DeleteRun(plan, net)[i].outcome == Succeeded <==> net(DeleteRequest(plan[i])) == Status(ACCEPTED))
  {
    DeleteRunFollowsPlan(plan, net);
  }

  /** A run over two plans one after the other is the first run, then, unless
      that one was aborted, the second run. */
  lemma {:induction false} DeleteRunConcat(a: seq<Target>, b: seq<Target>, net: Request -> Reply)
    ensures DeleteRun(a + b, net) ==
      DeleteRun(a, net) + (if Aborted(DeleteRun(a, net)) then [] else DeleteRun(b, net))
  {
    if a == [] {
      assert a + b == b;
    } else {
      assert (a + b)[1..] == a[1..] + b;
      DeleteRunConcat(a[1..], b, net);
    }
  }

  /** A run from position `i` is the call for entry `i`, followed, unless
      that call raised, by the run from `i + 1`. */
  lemma DeleteRunStep(plan: seq<Target>, i: nat, net: Request -> Reply)
    requires i < |plan|
    ensures var call := Call(DeleteRequest(plan[i]), DeleteOutcome(net(DeleteRequest(plan[i]))));
      DeleteRun(plan[i..], net) ==
        [call] + (if call.outcome == TransportFailure then [] else DeleteRun(plan[i + 1..], net))
  {
    assert plan[i..][1..] == plan[i + 1..];
  }

  /** The DELETE loop itself: one request per planned entry, in order, each
      reply classified; a transport failure leaves the loop. */
  method DeleteEach(plan: seq<Target>, net: Request -> Reply) returns (calls: seq<Call>)
    ensures calls == DeleteRun(plan, net)
  {
    calls := [];
    var i := 0;
    var aborted := false;
    while i < |plan| && !aborted
      invariant 0 <= i <= |plan|
      invariant aborted ==> calls == DeleteRun(plan, net)
      invariant !aborted ==> calls + DeleteRun(plan[i..], net) == DeleteRun(plan, net)
    {
      var req := DeleteRequest(plan[i]);
      var outcome := DeleteOutcome(net(req));
      DeleteRunStep(plan, i, net);
      var rest := if outcome == TransportFailure then [] else DeleteRun(plan[i + 1..], net);
      assert calls + ([Call(req, outcome)] + rest) == (calls + [Call(req, outcome)]) + rest;
      calls := calls + [Call(req, outcome)];
      aborted := outcome == TransportFailure;
      i := i + 1;
    }
  }
}
