/**
 * The client of the spreadsheet-backed store (services/api.ts): the record shape, the
 * wire format of the POST bodies, the validity filter and newest-first ordering applied
 * to a fetched list, and the status check shared by the three mutating calls.
 *
 * The network is a parameter: a GET response is `Some(rows)` when the request, the
 * status check and the JSON decoding all succeeded and `None` otherwise; a POST is a
 * function from the body sent to the reply received.
 */
module Api {
  import opened Common
  import Strings

  /** A memory record as the client holds it (types.ts). `date` is the ISO text the store keeps. */
  datatype Memory = Memory(
    id: string,
    imageUrl: string,
    title: string,
    description: string,
    date: string,
    rotation: int,
    swayClass: Option<string>)

  /** The record the client submits for creation: a memory without its image URL, plus the image payload. */
  datatype NewMemory = NewMemory(
    id: string,
    date: string,
    title: string,
    description: string,
    imageBase64: string,
    rotation: Option<SafeInteger>,
    swayClass: Option<string>)

  /** The JSON body of a POST, by its `action` field. */
  datatype PostBody =
    | CreateBody(memory: NewMemory)
    | UpdateBody(id: string, title: string, description: string)
    | DeleteBody(id: string)

  /** What a POST yields: an exception (network failure or a body that is not JSON), or a decoded `status` field. */
  datatype Reply = Threw | Answered(status: string)

  /** The image URL check of the fetch filter: present, longer than twenty characters, no literal "undefined". */
  predicate HasValidImage(url: string) {
    url != "" && |url| > 20 && !Strings.Contains(url, "undefined")
  }

  /** The rows the client keeps: a truthy id and a plausible image. */
  predicate IsValid(m: Memory) {
    m.id != "" && HasValidImage(m.imageUrl)
  }

  /**
   * Dates never increase along `s`. `timeOf` stands for `new Date(d).getTime()`,
   * which the model does not interpret.
   */
  ghost predicate NewestFirst(s: seq<Memory>, timeOf: string -> int) {
    forall i, j :: 0 <= i < j < |s| ==> timeOf(s[i].date) >= timeOf(s[j].date)
  }

  /** Places `m` into a newest-first list, ahead of the first record that is not newer than it. */
  function InsertByDate(m: Memory, s: seq<Memory>, timeOf: string -> int): (r: seq<Memory>)
    requires NewestFirst(s, timeOf)
    ensures multiset(r) == multiset(s) + multiset{m}
    ensures NewestFirst(r, timeOf)
  {
    if s == [] then [m]
    else if timeOf(s[0].date) <= timeOf(m.date) then
      PrependNewest(m, s, timeOf);
      [m] + s
    else
      var rest := InsertByDate(m, s[1..], timeOf);
      InsertBehind(m, s, rest, timeOf);
      [s[0]] + rest
  }

  /** The step of `InsertByDate` that keeps a newer head in front of the insertion into the tail. */
  lemma InsertBehind(m: Memory, s: seq<Memory>, rest: seq<Memory>, timeOf: string -> int)
    requires s != [] && NewestFirst(s, timeOf) && timeOf(s[0].date) > timeOf(m.date)
    requires multiset(rest) == multiset(s[1..]) + multiset{m} && NewestFirst(rest, timeOf)
    ensures multiset([s[0]] + rest) == multiset(s) + multiset{m}
    ensures NewestFirst([s[0]] + rest, timeOf)
  {
    assert s == [s[0]] + s[1..];
    forall x | x in rest ensures timeOf(s[0].date) >= timeOf(x.date) {
      assert x in multiset(rest);
      assert x in s[1..] || x == m;
    }
    PrependNewest(s[0], rest, timeOf);
  }

  /** A record no older than anything in a newest-first list may go in front of it. */
  lemma PrependNewest(x: Memory, s: seq<Memory>, timeOf: string -> int)
    requires NewestFirst(s, timeOf)
    requires forall y :: y in s ==> timeOf(x.date) >= timeOf(y.date)
    ensures NewestFirst([x] + s, timeOf)
  {
    var r := [x] + s;
    forall i, j | 0 <= i < j < |r| ensures timeOf(r[i].date) >= timeOf(r[j].date) {
      assert r[j] == s[j - 1];
      if i > 0 {
        assert r[i] == s[i - 1];
      }
    }
  }

  /**
   * The comparator sort of services/api.ts:155, `(a, b) => time(b) - time(a)`, as the
   * stable insertion sort that `Array.prototype.sort` is required to agree with.
   */
  function SortNewestFirst(s: seq<Memory>, timeOf: string -> int): (r: seq<Memory>)
    ensures multiset(r) == multiset(s)
    ensures NewestFirst(r, timeOf)
  {
    if s == [] then []
    else
      assert s == [s[0]] + s[1..];
      InsertByDate(s[0], SortNewestFirst(s[1..], timeOf), timeOf)
  }

  /** A list that is already newest first comes back unchanged, ties included; so sorting is idempotent. */
  lemma {:induction false} SortKeepsNewestFirst(s: seq<Memory>, timeOf: string -> int)
    requires NewestFirst(s, timeOf)
    ensures SortNewestFirst(s, timeOf) == s
  {
    if s != [] {
      SortKeepsNewestFirst(s[1..], timeOf);
      assert s == [s[0]] + s[1..];
    }
  }

  /**
   * `api.fetchMemories`: keeps the valid rows of a successful response, newest first;
   * any failure yields the empty list instead of an error.
   */
  function FetchMemories(response: Option<seq<Memory>>, timeOf: string -> int): (r: seq<Memory>)
    ensures response.None? ==> r == []
    ensures response.Some? ==> multiset(r) == multiset(Filter(response.value, IsValid))
    ensures forall m :: m in r <==> response.Some? && m in response.value && IsValid(m)
    ensures NewestFirst(r, timeOf)
  {
    match response
    case None => []
    case Some(data) =>
      var r := SortNewestFirst(Filter(data, IsValid), timeOf);
      assert forall m :: m in r <==> m in multiset(r);
      r
  }

  /** Every copy of a valid fetched row is returned, and no copy of an invalid one. */
  lemma FetchKeepsEveryCopy(data: seq<Memory>, timeOf: string -> int, m: Memory)
    ensures multiset(FetchMemories(Some(data), timeOf))[m] == if IsValid(m) then multiset(data)[m] else 0
  {
    FilterCount(data, IsValid, m);
  }

  /** `result.status === 'success'`; a thrown exception counts as failure. */
  predicate Succeeded(reply: Reply) {
    reply.Answered? && reply.status == "success"
  }

  /** `api.addMemory`: posts `{action: 'create', ...memory}`. */
  function AddMemory(memory: NewMemory, post: PostBody -> Reply): (ok: bool)
    ensures ok <==> post(CreateBody(memory)) == Answered("success")
  {
    Succeeded(post(CreateBody(memory)))
  }

  /** `api.updateMemory`: posts `{action: 'update', id, title, description}`. */
  function UpdateMemory(id: string, title: string, description: string, post: PostBody -> Reply): (ok: bool)
    ensures ok <==> post(UpdateBody(id, title, description)) == Answered("success")
  {
    Succeeded(post(UpdateBody(id, title, description)))
  }

  /** `api.deleteMemory`: posts `{action: 'delete', id}`. */
  function DeleteMemory(id: string, post: PostBody -> Reply): (ok: bool)
    ensures ok <==> post(DeleteBody(id)) == Answered("success")
  {
    Succeeded(post(DeleteBody(id)))
  }
}
