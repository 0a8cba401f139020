/** Paging through user backends: each backend is read 500 users at a time
    until a page comes back short. */
module Pagination {

  const PageSize: nat := 500

  /** getUsers('', limit, offset) of a backend holding users in order. */
  function GetUsers(backend: seq<string>, limit: nat, offset: nat): (page: seq<string>)
    ensures |page| <= limit
    ensures offset <= |backend| ==> page <= backend[offset..]
    ensures offset <= |backend| && |page| < limit ==> page == backend[offset..]
    ensures offset >= |backend| ==> page == []
  {
    if offset >= |backend| then []
    else if offset + limit <= |backend| then backend[offset..offset + limit]
    else backend[offset..]
  }

  /** A page continues what the earlier pages returned: a full page up to
      the next offset, a short one to the end of the backend. */
  lemma PageStep(backend: seq<string>, limit: nat, offset: nat)
    requires offset <= |backend|
    ensures var page := GetUsers(backend, limit, offset);
      && backend[..offset] + page <= backend
      && (|page| >= limit ==> offset + limit <= |backend| && backend[..offset] + page == backend[..offset + limit])
      && (|page| < limit ==> backend[..offset] + page == backend)
  {
    var page := GetUsers(backend, limit, offset);
    assert backend[..offset] + backend[offset..] == backend;
    if |page| >= limit {
      assert page == backend[offset..offset + limit];
      assert backend[..offset] + backend[offset..offset + limit] == backend[..offset + limit];
    }
  }

  /** The users handled so far after one more page of a backend: all of
      them up to the next offset or the end after a full or a short page,
      a prefix of the backend after a page that was cut short. */
  lemma PageAdvance(processed: seq<string>, backend: seq<string>, limit: nat, offset: nat,
                    before: seq<string>, after: seq<string>, finished: bool)
    requires offset <= |backend| && before == processed + backend[..offset]
    requires finished ==> after == before + GetUsers(backend, limit, offset)
    requires !finished ==> after <= before + GetUsers(backend, limit, offset)
    ensures var page := GetUsers(backend, limit, offset);
      && (finished && |page| >= limit ==> offset + limit <= |backend| && after == processed + backend[..offset + limit])
      && (finished && |page| < limit ==> after == processed + backend)
      && (!finished ==> after <= processed + backend)
  {
    var page := GetUsers(backend, limit, offset);
    PageStep(backend, limit, offset);
    assert before + page == processed + (backend[..offset] + page);
    if !finished {
      assert processed + (backend[..offset] + page) <= processed + backend;
    }
  }

  /** All users of all backends, backend by backend. */
  function Flatten(backends: seq<seq<string>>): seq<string>
  {
    if backends == [] then [] else Flatten(backends[..|backends| - 1]) + backends[|backends| - 1]
  }

  lemma FlattenSnoc(backends: seq<seq<string>>, b: seq<string>)
    ensures Flatten(backends + [b]) == Flatten(backends) + b
  {
    assert (backends + [b])[..|backends|] == backends;
  }

  /** The users of the first c backends come first among all users. */
  lemma {:induction false} FlattenPrefix(backends: seq<seq<string>>, c: nat)
    requires c <= |backends|
    ensures Flatten(backends[..c]) <= Flatten(backends)
    decreases |backends|
  {
    if c < |backends| {
      var n := |backends| - 1;
      assert backends[..n][..c] == backends[..c];
      FlattenPrefix(backends[..n], c);
    } else {
      assert backends[..c] == backends;
    }
  }

  /** The offsets requested from a backend of n users: 0, 500, ... up to and
      including the first page that comes back short. */
  function PageOffsets(n: nat): seq<nat>
  {
    seq(n / PageSize + 1, i requires 0 <= i => i * PageSize)
  }

  /** Reads one backend to its end, page by page. */
  method PageThrough(backend: seq<string>) returns (users: seq<string>, ghost offsets: seq<nat>)
    ensures users == backend
    ensures offsets == PageOffsets(|backend|)
  {
    var limit := PageSize;
    var offset := 0;
    users, offsets := [], [];
    var more := true;
    while more
      invariant offset == |offsets| * PageSize
      invariant forall i :: 0 <= i < |offsets| ==> offsets[i] == i * PageSize
      invariant more ==> offset <= |backend| && users == backend[..offset]
      invariant !more ==> |backend| < offset <= |backend| + PageSize && users == backend
      decreases |backend| + PageSize - offset
    {
      var page := GetUsers(backend, limit, offset);
      users := users + page;
      offsets := offsets + [offset];
      offset := offset + limit;
      more := |page| >= limit;
    }
  }

  /** Collects the users of every backend, in backend order. */
  method CollectUsers(backends: seq<seq<string>>) returns (users: seq<string>, ghost offsets: seq<seq<nat>>)
    ensures users == Flatten(backends)
    ensures |offsets| == |backends|
    ensures forall b :: 0 <= b < |backends| ==> offsets[b] == PageOffsets(|backends[b]|)
  {
    users, offsets := [], [];
    for b := 0 to |backends|
      invariant users == Flatten(backends[..b])
      invariant |offsets| == b
      invariant forall c :: 0 <= c < b ==> offsets[c] == PageOffsets(|backends[c]|)
    {
      var some, offs := PageThrough(backends[b]);
      assert backends[..b + 1][..b] == backends[..b];
      users := users + some;
      offsets := offsets + [offs];
    }
    assert backends[..|backends|] == backends;
  }
}
