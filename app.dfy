/**
 * The memory board's controller (App.tsx): the in-memory list of memories, its snapshot
 * in local storage, the search filter over it, the cache-first load, the create-then-reload
 * flow, the optimistic delete with rollback, and the remembered login flag.
 *
 * The login, load and delete handlers are each split at their `await`: the part before it
 * and the part after it are separate methods, and a third method runs them back to back.
 * The add handler, which awaits twice, is one method that calls the whole load. Remote
 * results are parameters.
 */
module App {
  import opened Common
  import Strings
  import Api
  import Auth

  type Memory = Api.Memory

  /** The three hanging animations a new memory may get. */
  const SwayClasses: seq<string> := ["sway-slow", "sway-medium", "sway-fast"]

  /** The flag value that marks a remembered login. */
  const AuthenticatedFlag: string := "true"

  /**
   * The memories snapshot slot as `loadMemories` finds it: absent (or empty text), not
   * JSON, JSON that is not an array, or an array of records.
   */
  datatype Stored = Missing | Unparseable | NotArray | ArrayOf(items: seq<Memory>)

  /** The only snapshot `loadMemories` renders from: a parsed array with at least one record. */
  predicate UsableCache(stored: Stored) {
    stored.ArrayOf? && |stored.items| > 0
  }

  /** The fields of a new memory the add dialog hands over. */
  datatype Draft = Draft(title: string, description: string, date: string, imageBase64: string)

  /**
   * The search predicate of `filteredMemories`: the lowered term occurs in the lowered
   * title, description or formatted date. `formatDate` stands for
   * `new Date(d).toLocaleDateString('id-ID', ...)`, which the model does not interpret.
   */
  predicate MatchesSearch(m: Memory, term: string, formatDate: string -> string) {
    var t := Strings.Lower(term);
    Strings.Contains(Strings.Lower(m.title), t)
    || Strings.Contains(Strings.Lower(m.description), t)
    || Strings.Contains(Strings.Lower(formatDate(m.date)), t)
  }

  /** `filteredMemories`: the memories the search term selects, in list order. */
  function FilteredMemories(memories: seq<Memory>, term: string, formatDate: string -> string): (r: seq<Memory>)
    ensures |r| <= |memories|
    ensures forall m :: m in r <==> m in memories && MatchesSearch(m, term, formatDate)
    ensures forall m :: multiset(r)[m] == if MatchesSearch(m, term, formatDate) then multiset(memories)[m] else 0
    ensures term == "" ==> r == memories
  {
    var r := Filter(memories, m => MatchesSearch(m, term, formatDate));
    forall m ensures multiset(r)[m] == if MatchesSearch(m, term, formatDate) then multiset(memories)[m] else 0 {
      FilterCount(memories, m => MatchesSearch(m, term, formatDate), m);
    }
    if term == "" then
      FilterAll(memories, m => MatchesSearch(m, term, formatDate));
      r
    else r
  }

  /** Searching a list in two parts is searching each part: the filter keeps list order. */
  lemma FilteredMemoriesKeepOrder(a: seq<Memory>, b: seq<Memory>, term: string, formatDate: string -> string)
    ensures FilteredMemories(a + b, term, formatDate) == FilteredMemories(a, term, formatDate) + FilteredMemories(b, term, formatDate)
  {
    FilterConcat(a, b, m => MatchesSearch(m, term, formatDate));
  }

  /** `memories.filter(m => m.id !== id)`: every record with that id goes, all others stay. */
  function WithoutId(memories: seq<Memory>, id: string): (r: seq<Memory>)
    ensures forall m :: m in r <==> m in memories && m.id != id
    ensures forall m: Memory :: m.id != id ==> multiset(r)[m] == multiset(memories)[m]
  {
    var r := Filter(memories, (m: Memory) => m.id != id);
    forall m: Memory | m.id != id ensures multiset(r)[m] == multiset(memories)[m] {
      FilterCount(memories, (m: Memory) => m.id != id, m);
    }
    r
  }

  /** Removing an id from a list in two parts removes it from each: survivors keep their order. */
  lemma WithoutIdKeepsOrder(a: seq<Memory>, b: seq<Memory>, id: string)
    ensures WithoutId(a + b, id) == WithoutId(a, id) + WithoutId(b, id)
  {
    FilterConcat(a, b, (m: Memory) => m.id != id);
  }

  /** Removing an id nobody has leaves the list as it was. */
  lemma WithoutAbsentId(memories: seq<Memory>, id: string)
    requires forall m :: m in memories ==> m.id != id
    ensures WithoutId(memories, id) == memories
  {
    FilterAll(memories, (m: Memory) => m.id != id);
  }

  /** `result.success` is truthy; a failed request or an unreadable reply counts as a refusal. */
  predicate Accepted(reply: Option<Auth.Response>) {
    reply.Some? && reply.value.success == Some(true)
  }

  /** Logging in with the text typed into the form succeeds exactly when it is the configured password. */
  lemma LoginAcceptsExactlyThePassword(password: string, env: Option<string>)
    ensures Accepted(Some(Auth.Handler("POST", Some(Auth.Str(password)), env))) <==> password == Auth.ExpectedPassword(env)
  {
  }

  /** The component state of `App` together with the two local-storage slots it owns. */
  class Controller {
    var isAuthenticated: bool
    var authFlag: Option<string>      // local storage 'arsip_authenticated'
    var isCheckingAuth: bool
    var authError: bool
    var isVerifying: bool
    var passwordInput: string
    var memories: seq<Memory>
    var cache: Stored                 // local storage 'arsip_memories_data'
    var isModalOpen: bool
    var deleteId: Option<string>
    var searchTerm: string
    var isLoading: bool

    /** The first render: initial component state over whatever local storage already holds. */
    constructor (storedAuth: Option<string>, storedMemories: Stored)
      ensures authFlag == storedAuth && cache == storedMemories
      ensures !isAuthenticated && isCheckingAuth && !authError && !isVerifying && passwordInput == ""
      ensures memories == [] && !isModalOpen && deleteId.None? && searchTerm == "" && isLoading
    {
      isAuthenticated, authFlag, isCheckingAuth, authError, isVerifying, passwordInput := false, storedAuth, true, false, false, "";
      memories, cache, isModalOpen, deleteId, searchTerm, isLoading := [], storedMemories, false, None, "", true;
    }

    /** The cache slot holds exactly the list on screen. */
    predicate Synced()
      reads this
    {
      cache == ArrayOf(memories)
    }

    /** The mount effect: a stored flag of exactly 'true' restores the login. */
    method CheckStoredAuth()
      modifies this`isAuthenticated, this`isCheckingAuth
      ensures isAuthenticated == (old(isAuthenticated) || authFlag == Some(AuthenticatedFlag))
      ensures !isCheckingAuth
    {
      if authFlag == Some(AuthenticatedFlag) {
        isAuthenticated := true;
      }
      isCheckingAuth := false;
    }

    /** Typing into the password field clears a previous error. */
    method TypePassword(text: string)
      modifies this`passwordInput, this`authError
      ensures passwordInput == text && !authError
    {
      passwordInput := text;
      authError := false;
    }

    /** `handleLogin` up to its `await`. */
    method BeginLogin()
      modifies this`authError, this`isVerifying
      ensures !authError && isVerifying
    {
      authError := false;
      isVerifying := true;
    }

    /** `handleLogin` after the auth endpoint answered (`None`: the request or its JSON failed). */
    method FinishLogin(reply: Option<Auth.Response>)
      modifies this`isAuthenticated, this`authFlag, this`authError, this`isVerifying
      ensures Accepted(reply) ==> isAuthenticated && authFlag == Some(AuthenticatedFlag) && !authError
      ensures !Accepted(reply) ==> isAuthenticated == old(isAuthenticated) && authFlag == old(authFlag) && authError
      ensures !isVerifying
    {
      if reply.Some? && reply.value.success == Some(true) {
        isAuthenticated := true;
        authFlag := Some(AuthenticatedFlag);
        authError := false;
      } else {
        authError := true;
      }
      isVerifying := false;
    }

    /** `handleLogin`, start to finish. */
    method HandleLogin(reply: Option<Auth.Response>)
      modifies this`isAuthenticated, this`authFlag, this`authError, this`isVerifying
      ensures Accepted(reply) ==> isAuthenticated && authFlag == Some(AuthenticatedFlag) && !authError
      ensures !Accepted(reply) ==> isAuthenticated == old(isAuthenticated) && authFlag == old(authFlag) && authError
      ensures !isVerifying
    {
      BeginLogin();
      FinishLogin(reply);
    }

    /** `handleLogout`: forgets the login in memory and in storage, and clears the typed password. */
    method Logout()
      modifies this`isAuthenticated, this`authFlag, this`passwordInput
      ensures !isAuthenticated && authFlag.None? && passwordInput == ""
    {
      isAuthenticated := false;
      authFlag := None;
      passwordInput := "";
    }

    method SetSearchTerm(term: string)
      modifies this`searchTerm
      ensures searchTerm == term
    {
      searchTerm := term;
    }

    /**
     * `loadMemories` up to its `await`: a usable snapshot is shown at once; anything
     * else (no snapshot, bad JSON, a non-array, an empty array) only turns the spinner on.
     */
    method BeginLoad() returns (hasCache: bool)
      modifies this`memories, this`isLoading
      ensures hasCache <==> UsableCache(cache)
      ensures hasCache ==> memories == cache.items && !isLoading && Synced()
      ensures !hasCache ==> memories == old(memories) && isLoading
    {
      hasCache := false;
      if cache.ArrayOf? && |cache.items| > 0 {
        memories := cache.items;
        isLoading := false;
        hasCache := true;
      }
      if !hasCache {
        isLoading := true;
      }
    }

    /**
     * `loadMemories` after `api.fetchMemories` resolved. That call never rejects, and the
     * snapshot write is taken to succeed, so the catch branch is not reached: a failed
     * fetch replaces list and snapshot with [].
     */
    method CompleteLoad(response: Option<seq<Memory>>, timeOf: string -> int)
      modifies this`memories, this`cache, this`isLoading
      ensures memories == Api.FetchMemories(response, timeOf)
      ensures response.None? ==> memories == []
      ensures Synced() && !isLoading
    {
      var data := Api.FetchMemories(response, timeOf);
      memories := data;
      cache := ArrayOf(data);
      isLoading := false;
    }

    /** `loadMemories`, start to finish: whatever the snapshot held, the fetched list wins. */
    method LoadMemories(response: Option<seq<Memory>>, timeOf: string -> int)
      modifies this`memories, this`cache, this`isLoading
      ensures memories == Api.FetchMemories(response, timeOf)
      ensures Synced() && !isLoading
    {
      var _ := BeginLoad();
      CompleteLoad(response, timeOf);
    }

    /**
     * `handleAddMemory`. `now` is `Date.now().toString()`, `swayPick` the index drawn from
     * `Math.random()`; `post` is the store's answer and `response` the reload's GET.
     * Nothing is inserted locally: success reloads, failure leaves everything as it was.
     */
    method HandleAddMemory(draft: Draft, now: string, rotation: SafeInteger, swayPick: nat,
                           post: Api.PostBody -> Api.Reply,
                           response: Option<seq<Memory>>, timeOf: string -> int)
      returns (sent: Api.NewMemory)
      requires swayPick < |SwayClasses|
      modifies this`memories, this`cache, this`isLoading, this`isModalOpen
      ensures sent == Api.NewMemory(now, draft.date, draft.title, draft.description, draft.imageBase64,
                                    Some(rotation), Some(SwayClasses[swayPick]))
      ensures sent.swayClass.Some? && sent.swayClass.value in SwayClasses
      ensures Api.AddMemory(sent, post) ==>
        memories == Api.FetchMemories(response, timeOf) && Synced() && !isLoading && !isModalOpen
      ensures !Api.AddMemory(sent, post) ==>
        memories == old(memories) && cache == old(cache) && isLoading == old(isLoading) && isModalOpen == old(isModalOpen)
    {
      sent := Api.NewMemory(now, draft.date, draft.title, draft.description, draft.imageBase64,
                            Some(rotation), Some(SwayClasses[swayPick]));
      var success := Api.AddMemory(sent, post);
      if success {
        LoadMemories(response, timeOf);
        isModalOpen := false;
      }
    }

    /** `handleDeleteClick`: the card's id awaits confirmation. */
    method RequestDelete(id: string)
      modifies this`deleteId
      ensures deleteId == Some(id)
    {
      deleteId := Some(id);
    }

    /** Closing the confirmation dialog. */
    method CancelDelete()
      modifies this`deleteId
      ensures deleteId.None?
    {
      deleteId := None;
    }

    /**
     * `confirmDelete` up to its `await`. With a pending id (non-null, non-empty) the list
     * and the snapshot lose every record with that id before the store is asked; the id
     * and the list as it was are handed on for the second half.
     */
    method BeginDelete() returns (started: bool, id: string, previous: seq<Memory>)
      modifies this`memories, this`cache, this`deleteId
      ensures started <==> old(deleteId).Some? && old(deleteId).value != ""
      ensures !started ==> memories == old(memories) && cache == old(cache) && deleteId == old(deleteId)
      ensures started ==> id == old(deleteId).value && previous == old(memories)
      ensures started ==> memories == WithoutId(old(memories), id) && Synced() && deleteId.None?
    {
      started, id, previous := false, "", [];
      if deleteId.Some? && deleteId.value != "" {
        started, id := true, deleteId.value;
        previous := memories;
        var newMemories := WithoutId(memories, id);
        memories := newMemories;
        cache := ArrayOf(newMemories);
        deleteId := None;
      }
    }

    /** `confirmDelete` after the store answered: a refusal puts back the list as it was, in memory and in the snapshot. */
    method FinishDelete(id: string, previous: seq<Memory>, post: Api.PostBody -> Api.Reply)
      modifies this`memories, this`cache
      ensures Api.DeleteMemory(id, post) ==> memories == old(memories) && cache == old(cache)
      ensures !Api.DeleteMemory(id, post) ==> memories == previous && Synced()
    {
      var success := Api.DeleteMemory(id, post);
      if !success {
        memories := previous;
        cache := ArrayOf(previous);
      }
    }

    /** `confirmDelete`, start to finish: the list loses the id for good, or gets back exactly what it had. */
    method ConfirmDelete(post: Api.PostBody -> Api.Reply)
      modifies this`memories, this`cache, this`deleteId
      ensures !(old(deleteId).Some? && old(deleteId).value != "") ==>
        memories == old(memories) && cache == old(cache) && deleteId == old(deleteId)
      ensures old(deleteId).Some? && old(deleteId).value != "" ==>
        var id := old(deleteId).value;
        deleteId.None? && Synced() &&
        memories == if Api.DeleteMemory(id, post) then WithoutId(old(memories), id) else old(memories)
    {
      var started, id, previous := BeginDelete();
      if started {
        FinishDelete(id, previous, post);
      }
    }
  }
}
