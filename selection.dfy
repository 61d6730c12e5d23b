/** Response selection in `reverse_proxy`: after every fan-out task has
    finished, the tasks are scanned in the order `asyncio.wait` hands them
    back (an unordered set, so here an arbitrary sequence). A task that raised
    is skipped; the first completed task whose status is 2xx is relayed as
    (content, status, headers); when the scan ends without one the reply is
    a 404. There is no fallback to a non-2xx upstream body. */
module Selection {
  import opened Http

  /** What the route hands back to the framework. */
  datatype Reply = Relay(content: seq<byte>, status: int, headers: seq<Header>) | NotFound

  /** A finished task the scan would return. */
  predicate Selectable(t: TaskResult)
  {
    t.Completed? && IsSuccessStatus(t.response.status)
  }

  /** The reply that relays an upstream response untouched. */
  function RelayOf(r: Response): Reply
  {
    Relay(r.content, r.status, r.headers)
  }

  /** The reply the scan over `finished` produces. */
  function Select(finished: seq<TaskResult>): (reply: Reply)
    ensures reply.Relay? <==> exists i :: 0 <= i < |finished| && Selectable(finished[i])
    ensures reply.Relay? ==>
      exists i :: 0 <= i < |finished| && Selectable(finished[i]) && reply == RelayOf(finished[i].response)
    ensures reply.Relay? ==> IsSuccessStatus(reply.status)
  {
    if finished == [] then NotFound
    else if Selectable(finished[0]) then RelayOf(finished[0].response)
    else
      var rest := Select(finished[1..]);
      assert forall i :: 0 < i < |finished| ==> finished[i] == finished[1..][i - 1];
      rest
  }

  /** The scan loop itself, with its early return. */
  method SelectResponse(finished: seq<TaskResult>) returns (reply: Reply)
    ensures reply == Select(finished)
  {
    for i := 0 to |finished|
      invariant Select(finished[i..]) == Select(finished)
    {
      assert finished[i..][1..] == finished[i + 1..];
      match finished[i] {
        case Raised =>
          // the exception is logged and the scan goes on
          continue;
        case Completed(response) =>
          if IsSuccessStatus(response.status) {
            return RelayOf(response);
          }
      }
    }
    return NotFound;
  }

  /** The relayed reply is the FIRST 2xx completion in scan order. */
  lemma {:induction false} SelectIsFirstSelectable(finished: seq<TaskResult>, i: nat)
    requires i < |finished| && Selectable(finished[i])
    requires forall j :: 0 <= j < i ==> !Selectable(finished[j])
    ensures Select(finished) == RelayOf(finished[i].response)
  {
    if i > 0 {
      assert !Selectable(finished[0]);
      assert forall j :: 0 <= j < i - 1 ==> finished[1..][j] == finished[j + 1];
      SelectIsFirstSelectable(finished[1..], i - 1);
    }
  }

  /** A task that raised, or completed with a non-2xx status, is never relayed
      and does not stop the scan: removing it leaves the reply unchanged. */
  lemma {:induction false} SkipUnselectable(before: seq<TaskResult>, t: TaskResult, after: seq<TaskResult>)
    requires !Selectable(t)
    ensures Select(before + [t] + after) == Select(before + after)
  {
    if before == [] {
      assert before + [t] + after == [t] + after;
      assert ([t] + after)[1..] == after;
      assert before + after == after;
    } else {
      assert (before + [t] + after)[0] == before[0];
      assert (before + after)[0] == before[0];
      assert (before + [t] + after)[1..] == before[1..] + [t] + after;
      assert (before + after)[1..] == before[1..] + after;
      SkipUnselectable(before[1..], t, after);
    }
  }

  /** Whatever order the tasks finish in, the proxy relays something exactly
      when one of them is a 2xx completion, and what it relays is always one
      of those completions. */
  lemma {:induction false} SelectAnyOrder(finished: seq<TaskResult>, reordered: seq<TaskResult>)
    requires multiset(finished) == multiset(reordered)
    ensures Select(finished).Relay? == Select(reordered).Relay?
    ensures Select(reordered).Relay? ==>
      exists i :: 0 <= i < |finished| && Selectable(finished[i])
        && Select(reordered) == RelayOf(finished[i].response)
  {
    forall i | 0 <= i < |finished| && Selectable(finished[i])
      ensures Select(reordered).Relay?
    {
      assert finished[i] in multiset(reordered);
      var j :| 0 <= j < |reordered| && reordered[j] == finished[i];
    }
    forall j | 0 <= j < |reordered| && Selectable(reordered[j])
      ensures Select(finished).Relay?
    {
      assert reordered[j] in multiset(finished);
      var i :| 0 <= i < |finished| && finished[i] == reordered[j];
    }
    if Select(reordered).Relay? {
      var j :| 0 <= j < |reordered| && Selectable(reordered[j])
        && Select(reordered) == RelayOf(reordered[j].response);
      assert reordered[j] in multiset(finished);
      var i :| 0 <= i < |finished| && finished[i] == reordered[j];
    }
  }
}
