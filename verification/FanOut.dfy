/** Query strategies over a mint's answers, and the fan-out that drives them. */
module FanOut {
  import opened Ordered

  type NodeId = nat

  datatype QueryStep<R> = Retry(nodes: set<NodeId>) | Continue | Success(result: R) | Failure

  /** The nodes whose latest answer is `v`. */
  function Voters<R(==)>(responses: map<NodeId, R>, v: R): set<NodeId> {
    set i | i in responses && responses[i] == v
  }

  /** No value has a threshold behind it yet. */
  ghost predicate Undecided<R(!new)>(responses: map<NodeId, R>, threshold: nat) {
    forall v {:trigger Voters(responses, v)} :: |Voters(responses, v)| < threshold
  }

  /** One more answer can bring its own value to the threshold, no other value,
      and never past it. */
  lemma OneMoreAnswer<R(!new)>(responses: map<NodeId, R>, node: NodeId, response: R, threshold: nat)
    requires Undecided(responses, threshold)
    ensures |Voters(responses[node := response], response)| <= threshold
    ensures |Voters(responses[node := response], response)| < threshold ==>
      Undecided(responses[node := response], threshold)
  {
    var more := responses[node := response];
    forall v ensures |Voters(more, v)| <= |Voters(responses, v)| + if v == response then 1 else 0 {
      if v == response {
        assert Voters(more, v) == Voters(responses, v) + {node};
      } else {
        SubsetSize(Voters(more, v), Voters(responses, v));
      }
    }
  }

  /** Waits for a threshold of identical answers, asking again once a threshold
      has answered without agreement. */
  class ThresholdConsensus<R(==, !new)> {
    var responses: map<NodeId, R>
    var retry: set<NodeId>
    const threshold: nat

    ghost predicate Valid()
      reads this
    {
      threshold > 0 && |retry| < threshold && Undecided(responses, threshold)
    }

    constructor (threshold: nat)
      requires threshold > 0
      ensures Valid() && responses == map[] && retry == {} && this.threshold == threshold
    {
      responses, retry, this.threshold := map[], {}, threshold;
    }

    /** A node's answer replaces its earlier one. The node must not be waiting
        to be asked again. */
    method Process(node: NodeId, response: R) returns (step: QueryStep<R>)
      requires Valid() && node !in retry
      modifies this
      ensures responses == old(responses)[node := response]
      ensures match step
        case Success(v) => v == response && |Voters(responses, v)| == threshold
        case Retry(nodes) => Valid() && retry == {} && nodes == old(retry) + {node} && |nodes| == threshold
        case Continue => Valid() && retry == old(retry) + {node}
        case Failure => false
    {
      OneMoreAnswer(responses, node, response, threshold);
      responses := responses[node := response];
      if |Voters(responses, response)| == threshold {
        return Success(response);
      }
      assert node !in retry;
      retry := retry + {node};
      if |retry| == threshold {
        var nodes := retry;
        retry := {};
        return Retry(nodes);
      }
      return Continue;
    }
  }

  /** Waits for a threshold of answers that pass a check. */
  class FilterMapThreshold<R, T(!new)> {
    const filterMap: (NodeId, R) -> Option<T>
    var filteredResponses: map<NodeId, T>
    const threshold: nat

    ghost predicate Valid()
      reads this
    {
      |filteredResponses| < threshold
    }

    constructor (filterMap: (NodeId, R) -> Option<T>, threshold: nat)
      requires threshold > 0
      ensures Valid() && filteredResponses == map[] && this.filterMap == filterMap && this.threshold == threshold
    {
      this.filterMap, filteredResponses, this.threshold := filterMap, map[], threshold;
    }

    method Process(node: NodeId, response: R) returns (step: QueryStep<map<NodeId, T>>)
      requires Valid()
      modifies this
      ensures match step
        case Success(m) => |m| == threshold && filterMap(node, response).Some?
          && m == old(filteredResponses)[node := filterMap(node, response).value]
        case Continue => Valid() && filterMap(node, response).Some?
          && filteredResponses == old(filteredResponses)[node := filterMap(node, response).value]
        case Failure => Valid() && filterMap(node, response).None? && filteredResponses == old(filteredResponses)
        case Retry(_) => false
    {
      match filterMap(node, response)
      case Some(value) =>
        KeysMore(filteredResponses, node, value);
        filteredResponses := filteredResponses[node := value];
        if |filteredResponses| == threshold {
          var all := filteredResponses;
          filteredResponses := map[];
          return Success(all);
        }
        return Continue;
      case None =>
        return Failure;
    }
  }

  // ----- the fan-out -----

  function Total(f: nat): nat { 3 * f + 1 }

  function Threshold(f: nat): nat { 2 * f + 1 }

  function OneHonest(f: nat): nat { f + 1 }

  datatype Outcome<R> = Returned(result: R) | Failed(errors: set<NodeId>)

  /** Each node has a request under way, waits to be asked again, or has failed;
      so while neither bound is reached some request is under way. */
  ghost predicate Partitioned(f: nat, requests: set<NodeId>, waiting: set<NodeId>, errors: set<NodeId>) {
    && requests + (waiting + errors) == Below(Total(f))
    && requests !! waiting && requests !! errors && waiting !! errors
  }

  lemma NeverRunsOut(f: nat, requests: set<NodeId>, waiting: set<NodeId>, errors: set<NodeId>)
    requires Partitioned(f, requests, waiting, errors) && |waiting| < Threshold(f) && |errors| < OneHonest(f)
    ensures requests != {}
  {
    assert |waiting + errors| == |waiting| + |errors|;
    assert |requests + (waiting + errors)| == |requests| + |waiting + errors|;
  }

  lemma RegroupNode(requests: set<NodeId>, waiting: set<NodeId>, errors: set<NodeId>, node: NodeId)
    requires node in requests
    ensures requests - {node} + ((waiting + {node}) + errors) == requests + (waiting + errors)
    ensures requests - {node} + (waiting + (errors + {node})) == requests + (waiting + errors)
    ensures requests - {node} + (waiting + {node}) + ({} + errors) == requests + (waiting + errors)
  {
  }

  /** Where a node goes when its request ends. */
  lemma RequestEnds(f: nat, requests: set<NodeId>, waiting: set<NodeId>, errors: set<NodeId>, node: NodeId)
    requires Partitioned(f, requests, waiting, errors) && node in requests
    ensures node !in waiting && node !in errors && |errors + {node}| == |errors| + 1
    ensures Partitioned(f, requests - {node}, waiting + {node}, errors)
    ensures Partitioned(f, requests - {node}, waiting, errors + {node})
    ensures Partitioned(f, requests - {node} + (waiting + {node}), {}, errors)
  {
    RegroupNode(requests, waiting, errors, node);
  }

  /** An arrival: a node's answer, or the failure of its request. */
  type Arrival<R> = (NodeId, Option<R>)

  /** Each node's latest answer in a log of arrivals. */
  function Latest<R>(log: seq<Arrival<R>>): map<NodeId, R> {
    if log == [] then map[] else
      var (node, result) := log[|log| - 1];
      var before := Latest(log[..|log| - 1]);
      if result.Some? then before[node := result.value] else before
  }

  /** The nodes with a failed request in the log. */
  function Errors<R>(log: seq<Arrival<R>>): set<NodeId> {
    set k | 0 <= k < |log| && log[k].1.None? :: log[k].0
  }

  lemma LogMore<R>(log: seq<Arrival<R>>, node: NodeId, result: Option<R>)
    ensures Latest(log + [(node, result)]) == if result.Some? then Latest(log)[node := result.value] else Latest(log)
    ensures Errors(log + [(node, result)]) == if result.Some? then Errors(log) else Errors(log) + {node}
  {
    var more := log + [(node, result)];
    assert more[..|log|] == log;
    assert forall k :: 0 <= k < |log| ==> more[k] == log[k];
    assert more[|log|] == (node, result);
    forall i | i in Errors(log) ensures i in Errors(more) {
      var k :| 0 <= k < |log| && log[k].1.None? && log[k].0 == i;
      assert more[k].0 == i;
    }
    if result.None? {
      assert more[|log|].0 in Errors(more);
    }
  }

  /** All arrivals are from nodes of the mint. */
  ghost predicate FromNodes<R>(f: nat, log: seq<Arrival<R>>) {
    forall k :: 0 <= k < |log| ==> log[k].0 < 3 * f + 1
  }

  lemma MoreFromNodes<R>(f: nat, log: seq<Arrival<R>>, requests: set<NodeId>, waiting: set<NodeId>,
                         errors: set<NodeId>, node: NodeId, result: Option<R>)
    requires FromNodes(f, log) && Partitioned(f, requests, waiting, errors) && node in requests
    ensures FromNodes(f, log + [(node, result)])
  {
    PartsBelow(f, requests, waiting, errors);
    assert node in Below(Total(f));
  }

  /** After these arrivals neither a result nor the failure stands. */
  ghost predicate Open<R(!new)>(f: nat, log: seq<Arrival<R>>) {
    |Errors(log)| < f + 1 && Undecided(Latest(log), 2 * f + 1)
  }

  /** Before the last arrival neither did. */
  ghost predicate LastStops<R(!new)>(f: nat, log: seq<Arrival<R>>) {
    log != [] && Open(f, log[..|log| - 1])
  }

  lemma LastToStop<R(!new)>(f: nat, log: seq<Arrival<R>>, node: NodeId, result: Option<R>)
    requires Open(f, log)
    ensures LastStops(f, log + [(node, result)])
  {
    assert (log + [(node, result)])[..|log|] == log;
  }

  /** The fan-out under `ThresholdConsensus`, for any number of arrivals in any
      order: `next` tells, from how many came before and which requests are
      under way, whose request ends next and how. None while still waiting.
      It never lacks a request to wait for, and a returned value is the latest
      answer of a threshold of nodes. */
  method RequestConsensus<R(==, !new)>(f: nat, next: (nat, set<NodeId>) -> Arrival<R>, arrivals: nat)
    returns (outcome: Option<Outcome<R>>, log: seq<Arrival<R>>)
    requires forall k, s :: s != {} ==> next(k, s).0 in s
    ensures FromNodes(f, log)
    ensures outcome.None? ==> |log| == arrivals && Open(f, log)
    ensures outcome.Some? && outcome.value.Returned? ==>
      |Voters(Latest(log), outcome.value.result)| == 2 * f + 1
    ensures outcome.Some? && outcome.value.Failed? ==>
      outcome.value.errors == Errors(log) && |Errors(log)| == f + 1
    ensures outcome.Some? ==> LastStops(f, log)
  {
    var strategy := new ThresholdConsensus<R>(Threshold(f));
    var requests, nodeErrors := Below(Total(f)), {};
    log := [];
    for k := 0 to arrivals
      invariant strategy.Valid() && fresh(strategy) && strategy.threshold == Threshold(f) && |log| == k
      invariant strategy.responses == Latest(log) && nodeErrors == Errors(log)
      invariant FromNodes(f, log)
      invariant Partitioned(f, requests, strategy.retry, nodeErrors) && |nodeErrors| < OneHonest(f)
    {
      NeverRunsOut(f, requests, strategy.retry, nodeErrors);
      assert requests != {};
      var (node, result) := next(k, requests);
      RequestEnds(f, requests, strategy.retry, nodeErrors, node);
      MoreFromNodes(f, log, requests, strategy.retry, nodeErrors, node, result);
      requests := requests - {node};
      LogMore(log, node, result);
      LastToStop(f, log, node, result);
      log := log + [(node, result)];
      match result {
        case Some(response) =>
          var step := strategy.Process(node, response);
          match step {
            case Retry(nodes) => requests := requests + nodes;
            case Success(v) => return Some(Returned(v)), log;
            case Failure => nodeErrors := nodeErrors + {node};
            case Continue =>
          }
        case None => nodeErrors := nodeErrors + {node};
      }
      if |nodeErrors| == OneHonest(f) {
        return Some(Failed(nodeErrors)), log;
      }
    }
    return None, log;
  }

  lemma {:induction false} LatestNodes<R>(f: nat, log: seq<Arrival<R>>)
    requires FromNodes(f, log)
    ensures Latest(log).Keys <= Below(3 * f + 1)
    decreases |log|
  {
    if log != [] {
      LatestNodes(f, log[..|log| - 1]);
    }
  }

  /** Whichever `f` nodes lie, a returned value has more than `f` honest nodes
      behind it. */
  lemma HonestBacking<R>(f: nat, log: seq<Arrival<R>>, v: R, liars: set<NodeId>)
    requires |Voters(Latest(log), v)| == Threshold(f) && |liars| <= f
    ensures |Voters(Latest(log), v) - liars| >= f + 1
  {
    var voters := Voters(Latest(log), v);
    assert voters == (voters - liars) + (voters * liars);
    SubsetSize(voters * liars, liars);
  }

  /** Where honest nodes keep to their answers, any two returned values are the
      same, whatever the liars told each. */
  lemma ReturnsAgree<R>(f: nat, one: seq<Arrival<R>>, two: seq<Arrival<R>>, v: R, w: R, liars: set<NodeId>,
                        answer: NodeId -> R)
    requires FromNodes(f, one) && FromNodes(f, two)
    requires |Voters(Latest(one), v)| == Threshold(f) && |Voters(Latest(two), w)| == Threshold(f) && |liars| <= f
    requires forall i :: i in Latest(one) && i !in liars ==> Latest(one)[i] == answer(i)
    requires forall i :: i in Latest(two) && i !in liars ==> Latest(two)[i] == answer(i)
    ensures v == w
  {
    LatestNodes(f, one);
    LatestNodes(f, two);
    var a, b := Voters(Latest(one), v), Voters(Latest(two), w);
    assert a <= Latest(one).Keys && b <= Latest(two).Keys;
    var i := QuorumsMeet(f, a, b, liars);
  }

  /** The nodes whose answer passes the check. */
  ghost function Accepted<R, T>(f: nat, answer: NodeId -> Option<R>, filterMap: (NodeId, R) -> Option<T>): set<NodeId> {
    set i | i in Below(Total(f)) && Accepts(answer, filterMap, i)
  }

  predicate Accepts<R, T>(answer: NodeId -> Option<R>, filterMap: (NodeId, R) -> Option<T>, i: NodeId) {
    answer(i).Some? && filterMap(i, answer(i).value).Some?
  }

  ghost predicate NoneAccepted<R, T>(nodes: set<NodeId>, answer: NodeId -> Option<R>,
                                     filterMap: (NodeId, R) -> Option<T>)
  {
    forall i :: i in nodes ==> !Accepts(answer, filterMap, i)
  }

  /** The answers of distinct nodes, each checked. */
  ghost predicate AllChecked<R, T>(m: map<NodeId, T>, answer: NodeId -> Option<R>,
                                   filterMap: (NodeId, R) -> Option<T>)
  {
    forall i :: i in m ==> Accepts(answer, filterMap, i) && m[i] == filterMap(i, answer(i).value).value
  }

  /** The fan-out under `FilterMapThreshold`, where no request is repeated: it
      always ends, whatever the order of arrival, with a threshold of checked
      answers or with more failures than the faulty nodes can cause; with at
      most `f` nodes failing it succeeds, with more than that many failing
      beyond a threshold it cannot. */
  method RequestFiltered<R, T(!new)>(f: nat, answer: NodeId -> Option<R>, filterMap: (NodeId, R) -> Option<T>)
    returns (outcome: Outcome<map<NodeId, T>>)
    ensures outcome.Returned? ==>
      |outcome.result| == 2 * f + 1 && AllChecked(outcome.result, answer, filterMap)
      && outcome.result.Keys <= Below(3 * f + 1)
    ensures outcome.Failed? ==>
      |outcome.errors| == f + 1 && outcome.errors <= Below(3 * f + 1)
      && NoneAccepted(outcome.errors, answer, filterMap)
    ensures outcome.Returned? <==> |Accepted(f, answer, filterMap)| >= 2 * f + 1
  {
    var strategy := new FilterMapThreshold(filterMap, Threshold(f));
    var requests, nodeErrors := Below(Total(f)), {};
    while true
      invariant strategy.Valid() && fresh(strategy)
      invariant strategy.filterMap == filterMap && strategy.threshold == Threshold(f)
      invariant Partitioned(f, requests, strategy.filteredResponses.Keys, nodeErrors) && |nodeErrors| < OneHonest(f)
      invariant AllChecked(strategy.filteredResponses, answer, filterMap)
      invariant NoneAccepted(nodeErrors, answer, filterMap)
      decreases requests
    {
      NeverRunsOut(f, requests, strategy.filteredResponses.Keys, nodeErrors);
      var node :| node in requests;
      AcceptedAnswer(f, requests, strategy.filteredResponses, nodeErrors, node, answer, filterMap);
      RejectedAnswer(f, requests, strategy.filteredResponses.Keys, nodeErrors, node);
      RejectedMore(nodeErrors, node, answer, filterMap);
      requests := requests - {node};
      match answer(node) {
        case Some(response) =>
          var step := strategy.Process(node, response);
          match step {
            case Success(m) =>
              EnoughAccepted(f, answer, filterMap, m);
              return Returned(m);
            case Continue =>
            case _ => nodeErrors := nodeErrors + {node};
          }
        case None => nodeErrors := nodeErrors + {node};
      }
      if |nodeErrors| == OneHonest(f) {
        TooFewAccepted(f, answer, filterMap, nodeErrors);
        return Failed(nodeErrors);
      }
    }
  }

  lemma RejectedMore<R, T>(nodes: set<NodeId>, node: NodeId, answer: NodeId -> Option<R>,
                           filterMap: (NodeId, R) -> Option<T>)
    requires NoneAccepted(nodes, answer, filterMap)
    ensures !Accepts(answer, filterMap, node) ==> NoneAccepted(nodes + {node}, answer, filterMap)
  {
  }

  lemma RejectedAnswer(f: nat, requests: set<NodeId>, waiting: set<NodeId>, errors: set<NodeId>, node: NodeId)
    requires Partitioned(f, requests, waiting, errors) && node in requests
    ensures Partitioned(f, requests - {node}, waiting, errors + {node}) && errors + {node} <= Below(Total(f))
    ensures |errors + {node}| == |errors| + 1
  {
    RequestEnds(f, requests, waiting, errors, node);
    PartsBelow(f, requests - {node}, waiting, errors + {node});
  }

  lemma AcceptedAnswer<R, T>(f: nat, requests: set<NodeId>, m: map<NodeId, T>, errors: set<NodeId>, node: NodeId,
                             answer: NodeId -> Option<R>, filterMap: (NodeId, R) -> Option<T>)
    requires Partitioned(f, requests, m.Keys, errors) && node in requests && AllChecked(m, answer, filterMap)
    ensures Accepts(answer, filterMap, node) ==>
      var more := m[node := filterMap(node, answer(node).value).value];
      && Partitioned(f, requests - {node}, more.Keys, errors)
      && AllChecked(more, answer, filterMap) && more.Keys <= Below(Total(f))
  {
    AcceptedNode(f, requests, m.Keys, errors, node);
    if Accepts(answer, filterMap, node) {
      KeysMore(m, node, filterMap(node, answer(node).value).value);
      CheckedMore(m, node, answer, filterMap);
    }
  }

  lemma AcceptedNode(f: nat, requests: set<NodeId>, waiting: set<NodeId>, errors: set<NodeId>, node: NodeId)
    requires Partitioned(f, requests, waiting, errors) && node in requests
    ensures node !in waiting
    ensures Partitioned(f, requests - {node}, waiting + {node}, errors) && waiting + {node} <= Below(Total(f))
  {
    RequestEnds(f, requests, waiting, errors, node);
    PartsBelow(f, requests - {node}, waiting + {node}, errors);
  }

  lemma KeysMore<T>(m: map<NodeId, T>, node: NodeId, value: T)
    ensures m[node := value].Keys == m.Keys + {node}
    ensures |m[node := value]| == if node in m then |m| else |m| + 1
  {
    var more := m[node := value];
    assert more.Keys == m.Keys + {node};
    assert |more| == |more.Keys| && |m| == |m.Keys|;
    if node in m {
      assert more.Keys == m.Keys;
    }
  }

  lemma PartsBelow(f: nat, requests: set<NodeId>, waiting: set<NodeId>, errors: set<NodeId>)
    requires Partitioned(f, requests, waiting, errors)
    ensures requests <= Below(Total(f)) && waiting <= Below(Total(f)) && errors <= Below(Total(f))
  {
  }

  lemma CheckedMore<R, T>(m: map<NodeId, T>, node: NodeId, answer: NodeId -> Option<R>,
                          filterMap: (NodeId, R) -> Option<T>)
    requires AllChecked(m, answer, filterMap) && Accepts(answer, filterMap, node)
    ensures AllChecked(m[node := filterMap(node, answer(node).value).value], answer, filterMap)
  {
  }

  lemma EnoughAccepted<R, T>(f: nat, answer: NodeId -> Option<R>, filterMap: (NodeId, R) -> Option<T>,
                             m: map<NodeId, T>)
    requires AllChecked(m, answer, filterMap) && m.Keys <= Below(Total(f)) && |m| == Threshold(f)
    ensures |Accepted(f, answer, filterMap)| >= Threshold(f)
  {
    SubsetSize(m.Keys, Accepted(f, answer, filterMap));
    assert |m.Keys| == |m|;
  }

  function Answering<R>(answer: NodeId -> R): NodeId -> Option<R> {
    (i: NodeId) => Some(answer(i))
  }

  /** The retrying fan-out, whose requests never fail but whose rejected nodes
      are not asked again: none where it waits forever. */
  method RequestFilteredRetry<R, T(!new)>(f: nat, answer: NodeId -> R, filterMap: (NodeId, R) -> Option<T>)
    returns (outcome: Option<map<NodeId, T>>)
    ensures outcome.Some? ==>
      |outcome.value| == 2 * f + 1 && AllChecked(outcome.value, Answering(answer), filterMap)
    ensures outcome.Some? <==> |Accepted(f, Answering(answer), filterMap)| >= 2 * f + 1
  {
    ghost var answers := Answering(answer);
    var strategy := new FilterMapThreshold(filterMap, Threshold(f));
    var requests := Below(Total(f));
    ghost var rejected: set<NodeId> := {};
    while requests != {}
      invariant strategy.Valid() && fresh(strategy)
      invariant strategy.filterMap == filterMap && strategy.threshold == Threshold(f)
      invariant Partitioned(f, requests, strategy.filteredResponses.Keys, rejected)
      invariant AllChecked(strategy.filteredResponses, answers, filterMap)
      invariant NoneAccepted(rejected, answers, filterMap)
      decreases requests
    {
      var node :| node in requests;
      AcceptedAnswer(f, requests, strategy.filteredResponses, rejected, node, answers, filterMap);
      RejectedAnswer(f, requests, strategy.filteredResponses.Keys, rejected, node);
      RejectedMore(rejected, node, answers, filterMap);
      assert answers(node) == Some(answer(node));
      requests := requests - {node};
      var step := strategy.Process(node, answer(node));
      match step {
        case Success(m) =>
          EnoughAccepted(f, answers, filterMap, m);
          return Some(m);
        case Continue =>
        case _ => rejected := rejected + {node};
      }
    }
    AllRejected(f, answers, filterMap, strategy.filteredResponses, rejected);
    return None;
  }

  lemma AllRejected<R, T>(f: nat, answer: NodeId -> Option<R>, filterMap: (NodeId, R) -> Option<T>, m: map<NodeId, T>,
                          rejected: set<NodeId>)
    requires Partitioned(f, {}, m.Keys, rejected) && |m| < Threshold(f)
    requires NoneAccepted(rejected, answer, filterMap)
    ensures |Accepted(f, answer, filterMap)| < Threshold(f)
  {
    SubsetSize(Accepted(f, answer, filterMap), m.Keys);
    assert |m.Keys| == |m|;
  }

  lemma TooFewAccepted<R, T>(f: nat, answer: NodeId -> Option<R>, filterMap: (NodeId, R) -> Option<T>,
                             errors: set<NodeId>)
    requires errors <= Below(Total(f)) && |errors| == OneHonest(f)
    requires NoneAccepted(errors, answer, filterMap)
    ensures |Accepted(f, answer, filterMap)| < Threshold(f)
  {
    SubsetSize(Accepted(f, answer, filterMap), Below(Total(f)) - errors);
    assert |Below(Total(f)) - errors| == Total(f) - |errors|;
  }
}
