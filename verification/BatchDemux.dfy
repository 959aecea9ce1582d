/** Matching the responses of a JSON-RPC batch to its requests, and handing each transaction's
    error to its own callback (internal/rpc/client.go, internal/sender/sender.go).

    Section 6 of the JSON-RPC 2.0 Specification lets a server answer a batch in any order. */
module BatchDemux {

  datatype Error = Rpc(code: int) | MissingResponse | Transport(code: int)

  datatype Option<+T> = None | Some(value: T)

  /** A response object: an error, or a result. */
  datatype Response = Response(id: int, error: Option<int>, result: string)

  datatype Reply = Failed(error: Error) | Result(value: string)

  /** What a batch request came back as. */
  datatype Exchange = Answered(responses: seq<Response>) | Broken(code: int)

  // ---------------------------------------------------------------- specification

  /** The map by id that the client fills in order: a later response replaces an earlier one. */
  function ById(responses: seq<Response>): map<int, Response> {
    if responses == [] then map[]
    else
      var r := responses[|responses| - 1];
      ById(responses[..|responses| - 1])[r.id := r]
  }

  function ReplyFor(m: map<int, Response>, i: nat): Reply {
    if i + 1 !in m then Failed(MissingResponse)
    else if m[i + 1].error.Some? then Failed(Rpc(m[i + 1].error.value))
    else Result(m[i + 1].result)
  }

  function Replies(responses: seq<Response>, expected: nat): (r: seq<Reply>)
    ensures |r| == expected
  {
    seq(expected, i requires 0 <= i => ReplyFor(ById(responses), i))
  }

  function ErrorOf(r: Reply): Option<Error> { if r.Failed? then Some(r.error) else None }

  /** One error per transaction, none for success. */
  function Errors(x: Exchange, count: nat): (r: seq<Option<Error>>)
    ensures |r| == count
  {
    match x
    case Broken(code) => seq(count, _ => Some(Transport(code)))
    case Answered(responses) => seq(count, i requires 0 <= i < count => ErrorOf(Replies(responses, count)[i]))
  }

  // ---------------------------------------------------------------- the client and the sender

  method Demux(responses: seq<Response>, expected: nat) returns (results: seq<Reply>)
    ensures results == Replies(responses, expected)
  {
    var respMap: map<int, Response> := map[];
    for i := 0 to |responses|
      invariant respMap == ById(responses[..i])
    {
      assert responses[..i + 1][..i] == responses[..i];
      respMap := respMap[responses[i].id := responses[i]];
    }
    assert responses[..|responses|] == responses;
    results := [];
    for i := 0 to expected
      invariant |results| == i
      invariant forall j :: 0 <= j < i ==> results[j] == ReplyFor(respMap, j)
    {
      if i + 1 !in respMap {
        results := results + [Failed(MissingResponse)];
        continue;
      }
      var resp := respMap[i + 1];
      if resp.error.Some? {
        results := results + [Failed(Rpc(resp.error.value))];
        continue;
      }
      results := results + [Result(resp.result)];
    }
  }

  method SendRawTransactionBatch(x: Exchange, count: nat) returns (errs: seq<Option<Error>>)
    ensures errs == Errors(x, count)
  {
    if x.Broken? {
      return seq(count, _ => Some(Transport(x.code)));
    }
    var results := Demux(x.responses, count);
    errs := [];
    for i := 0 to count
      invariant |errs| == i && forall j :: 0 <= j < i ==> errs[j] == ErrorOf(results[j])
    {
      errs := errs + [ErrorOf(results[i])];
    }
  }

  /** The sender's loop over the callbacks: what each of them is called with. */
  method FanOut(errs: seq<Option<Error>>, callbacks: nat) returns (calls: seq<Option<Error>>)
    ensures |calls| == callbacks
    ensures forall i :: 0 <= i < callbacks ==> calls[i] == if i < |errs| then errs[i] else None
  {
    calls := [];
    for i := 0 to callbacks
      invariant |calls| == i && forall j :: 0 <= j < i ==> calls[j] == if j < |errs| then errs[j] else None
    {
      var err: Option<Error> := None;
      if i < |errs| { err := errs[i]; }
      calls := calls + [err];
    }
  }

  // ---------------------------------------------------------------- any order

  lemma {:induction false} ByIdMember(responses: seq<Response>, id: int)
    ensures id in ById(responses) <==> exists r :: r in responses && r.id == id
    ensures id in ById(responses) ==> ById(responses)[id] in responses && ById(responses)[id].id == id
  {
    if responses != [] {
      var init, last := responses[..|responses| - 1], responses[|responses| - 1];
      ByIdMember(init, id);
      assert responses == init + [last];
      if id in ById(init) { assert ById(init)[id] in responses; }
      if last.id == id { assert last in responses; }
    }
  }

  /** The answers to requests 1 to n, in request order. */
  ghost predicate InOrder(answers: seq<Response>) {
    forall i :: 0 <= i < |answers| ==> answers[i].id == i + 1
  }

  /** Whatever order the server answers in, request i gets answer i. */
  lemma AnyOrder(answers: seq<Response>, responses: seq<Response>)
    requires InOrder(answers) && multiset(responses) == multiset(answers)
    ensures forall i :: 0 <= i < |answers| ==>
            Replies(responses, |answers|)[i] ==
            if answers[i].error.Some? then Failed(Rpc(answers[i].error.value)) else Result(answers[i].result)
  {
    forall r ensures r in responses <==> r in answers {
      assert r in responses <==> r in multiset(responses);
      assert r in answers <==> r in multiset(answers);
    }
    forall i | 0 <= i < |answers|
      ensures i + 1 in ById(responses) && ById(responses)[i + 1] == answers[i]
    {
      assert answers[i] in responses && answers[i].id == i + 1;
      ByIdMember(responses, i + 1);
      var r := ById(responses)[i + 1];
      var j :| 0 <= j < |answers| && answers[j] == r;
      assert r.id == j + 1;
    }
  }

  /** Response k is the last one with its id. */
  ghost predicate LastOf(responses: seq<Response>, k: nat, id: int) {
    k < |responses| && responses[k].id == id && forall j :: k < j < |responses| ==> responses[j].id != id
  }

  lemma {:induction false} ByIdLast(responses: seq<Response>, k: nat, id: int)
    requires LastOf(responses, k, id)
    ensures id in ById(responses) && ById(responses)[id] == responses[k]
  {
    if k < |responses| - 1 {
      assert LastOf(responses[..|responses| - 1], k, id);
      ByIdLast(responses[..|responses| - 1], k, id);
    }
  }

  lemma {:induction false} HasLast(responses: seq<Response>, id: int) returns (k: nat)
    requires exists r :: r in responses && r.id == id
    ensures LastOf(responses, k, id)
  {
    var n := |responses| - 1;
    if responses[n].id == id {
      k := n;
    } else {
      assert responses == responses[..n] + [responses[n]];
      k := HasLast(responses[..n], id);
    }
  }

  /** The callback of transaction i is told of success exactly if the exchange held and the
      last response with id i + 1 has no error. */
  lemma CallbackSucceedsIff(x: Exchange, count: nat, i: nat)
    requires i < count
    ensures Errors(x, count)[i] == None <==>
            x.Answered? && exists k: nat :: LastOf(x.responses, k, i + 1) && x.responses[k].error == None
  {
    if x.Answered? {
      ByIdMember(x.responses, i + 1);
      assert Errors(x, count)[i] == ErrorOf(Replies(x.responses, count)[i]);
      if k: nat :| LastOf(x.responses, k, i + 1) && x.responses[k].error == None { ByIdLast(x.responses, k, i + 1); }
      if i + 1 in ById(x.responses) {
        var k := HasLast(x.responses, i + 1);
        ByIdLast(x.responses, k, i + 1);
      }
      hide ById, LastOf;
    }
  }

  /** And which error it is told of otherwise: that of a broken exchange, that of the last response
      with its id, or that there was none. */
  lemma CallbackError(x: Exchange, count: nat, i: nat, k: nat)
    requires i < count
    ensures x.Broken? ==> Errors(x, count)[i] == Some(Transport(x.code))
    ensures x.Answered? && LastOf(x.responses, k, i + 1) && x.responses[k].error.Some? ==>
            Errors(x, count)[i] == Some(Rpc(x.responses[k].error.value))
    ensures x.Answered? && (forall r :: r in x.responses ==> r.id != i + 1) ==>
            Errors(x, count)[i] == Some(MissingResponse)
  {
    if x.Answered? {
      ByIdMember(x.responses, i + 1);
      assert Errors(x, count)[i] == ErrorOf(Replies(x.responses, count)[i]);
      if LastOf(x.responses, k, i + 1) { ByIdLast(x.responses, k, i + 1); }
    }
  }
}
