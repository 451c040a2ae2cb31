/** The REST layer in front of the memory store: the background replication
    schedule that copies a new memory into the graph, and the request guards of
    the memory endpoints (identifier required, `None` filtering of the forwarded
    parameters, owner fallback, ownership checks, 404 for a missing path). The
    vector store behind the endpoints is not modelled: what it returns comes in as
    parameters. */
module Api {
  import opened Common
  import opened GraphStore
  import opened Traversal

  // ---------------------------------------------------------------------------
  // Replication with exponential backoff

  /** `max_retries`, or the configured default when the caller passed `None`. A
      given 0 (or a negative number) is kept: `range` then runs no attempt. */
  function Budget(maxRetries: Option<int>, configured: int): (n: int)
    ensures maxRetries.None? ==> n == configured
    ensures maxRetries.Some? ==> n == maxRetries.value
  {
    maxRetries.GetOr(configured)
  }

  /** The sleeps `2^0, 2^1, ..., 2^(m-1)` seconds, in order. */
  function Waits(m: nat): (r: seq<nat>)
    ensures |r| == m
  {
    if m == 0 then [] else Waits(m - 1) + [Pow2(m - 1)]
  }

  /** The wait after failed attempt `k` is `2^k` seconds. */
  lemma {:induction false} WaitsAt(m: nat, k: nat)
    requires k < m
    ensures Waits(m)[k] == Pow2(k)
  {
    if k < m - 1 {
      WaitsAt(m - 1, k);
    }
  }

  /** The waits of `m` attempts add up to `2^m - 1` seconds. */
  lemma {:induction false} WaitsSum(m: nat)
    ensures Sum(Waits(m)) == Pow2(m) - 1
  {
    if m > 0 {
      WaitsSum(m - 1);
      WaitsSumStep(Waits(m), Waits(m - 1), m);
    }
  }

  lemma WaitsSumStep(w: seq<int>, p: seq<int>, m: nat)
    requires m > 0 && w == p + [Pow2(m - 1)] && Sum(p) == Pow2(m - 1) - 1
    ensures Sum(w) == Pow2(m) - 1
  {
    assert w[..|w| - 1] == p;
  }

  /** The total the exhaustion message reports, `sum(2**i for i in range(n))`. */
  function LoggedTotalWait(n: int): nat {
    if n <= 0 then 0 else SumPow2(n)
  }

  /** What the retrying sync actually sleeps when every one of `n` attempts fails: there is
      no sleep after the last attempt. */
  function TotalWait(n: int): (r: nat)
    ensures n >= 1 ==> r == Sum(Waits(n - 1))
  {
    if n <= 0 then 0 else (WaitsSum(n - 1); Pow2(n - 1) - 1)
  }

  /** The reported total counts one sleep too many: the one after the last attempt,
      which never happens. With the default of 7 attempts the message says 127 s
      while the sync slept 63 s. */
  lemma LoggedTotalWaitOverstates(n: int)
    requires n >= 1
    ensures LoggedTotalWait(n) == TotalWait(n) + Pow2(n - 1)
    ensures LoggedTotalWait(n) > TotalWait(n)
    ensures LoggedTotalWait(7) == 127 && TotalWait(7) == 63
  {
    SumPow2Closed(n);
    SumPow2Closed(7);
  }

  /** One run of the retry task: how many attempts were made, the sleeps between
      them, whether the copy succeeded, and the total printed by the exhaustion
      message, when there is one. */
  datatype SyncRun = SyncRun(attempts: nat, waits: seq<nat>, synced: bool, exhaustionLog: Option<nat>)

  /** What a run of the retry task with budget `n` must look like: at most `n`
      attempts, every attempt before the last one failed, the copy succeeded exactly
      when some attempt within the budget would succeed (and then on the last one made),
      one doubling sleep between consecutive attempts, and the exhaustion message,
      with its total, exactly when every attempt failed. */
  predicate Reports(run: SyncRun, n: int, succeeds: nat -> bool) {
    && run.attempts <= (if n < 0 then 0 else n)
    && (forall k :: 0 <= k < run.attempts - 1 ==> !succeeds(k))
    && (run.synced <==> exists k: nat :: k < n && succeeds(k))
    && (run.synced ==> run.attempts >= 1 && succeeds(run.attempts - 1))
    && (!run.synced ==> run.attempts == if n < 0 then 0 else n)
    && run.waits == Waits(if run.attempts == 0 then 0 else run.attempts - 1)
    && (run.exhaustionLog.Some? <==> !run.synced && n >= 1)
    && (run.exhaustionLog.Some? ==> run.exhaustionLog.value == LoggedTotalWait(n))
    && (!run.synced ==> Sum(run.waits) == TotalWait(n))
  }

  /** `_sync_to_neo4j_with_retry`. Whether attempt `k` (counted from 0) succeeds is
      the oracle `succeeds(k)`: it stands for the graph write, which is not part of
      this model. */
  method SyncWithRetry(maxRetries: Option<int>, configured: int, succeeds: nat -> bool) returns (run: SyncRun)
    ensures Reports(run, Budget(maxRetries, configured), succeeds)
  {
    var n := Budget(maxRetries, configured);
    var count: nat := if n < 0 then 0 else n;
    var waits: seq<nat> := [];
    var log: Option<nat> := None;
    var attempt: nat := 0;
    while attempt < count
      invariant attempt <= count
      invariant forall k :: 0 <= k < attempt ==> !succeeds(k)
      invariant waits == Waits(if attempt == count && count > 0 then attempt - 1 else attempt)
      invariant log == if attempt == count && count > 0 then Some(LoggedTotalWait(n)) else None
    {
      if succeeds(attempt) {
        SyncedReports(n, attempt, waits, succeeds);
        return SyncRun(attempt + 1, waits, true, None);
      }
      if attempt < count - 1 {
        waits := waits + [Pow2(attempt)];
      } else {
        log := Some(LoggedTotalWait(n));
      }
      attempt := attempt + 1;
    }
    run := SyncRun(attempt, waits, false, log);
    ExhaustedReports(n, run, succeeds);
  }

  /** Leaving the loop early: the attempt that succeeded is the last one made. */
  lemma SyncedReports(n: int, attempt: nat, waits: seq<nat>, succeeds: nat -> bool)
    requires attempt < n && succeeds(attempt)
    requires forall k :: 0 <= k < attempt ==> !succeeds(k)
    requires waits == Waits(attempt)
    ensures Reports(SyncRun(attempt + 1, waits, true, None), n, succeeds)
  {
  }

  /** Leaving the loop after the budget: every attempt failed. */
  lemma ExhaustedReports(n: int, run: SyncRun, succeeds: nat -> bool)
    requires run.attempts == (if n < 0 then 0 else n) && !run.synced
    requires forall k :: 0 <= k < run.attempts ==> !succeeds(k)
    requires run.waits == Waits(if run.attempts == 0 then 0 else run.attempts - 1)
    requires run.exhaustionLog == if n >= 1 then Some(LoggedTotalWait(n)) else None
    ensures Reports(run, n, succeeds)
  {
    if n >= 1 {
      WaitsSum(n - 1);
    }
  }

  // ---------------------------------------------------------------------------
  // Request guards

  /** A reply: the value handed back, or an `HTTPException(status, detail)`. */
  datatype Reply<T> = Ok(value: T) | HttpError(status: nat, detail: string)

  /** Python truthiness of an optional string: `None` and `""` are false. */
  predicate Truthy(s: Option<string>) {
    s.Some? && s.value != ""
  }

  /** `any([user_id, agent_id, run_id])` */
  predicate AnyIdentifier(userId: Option<string>, agentId: Option<string>, runId: Option<string>) {
    Truthy(userId) || Truthy(agentId) || Truthy(runId)
  }

  datatype Message = Message(role: string, content: string)

  /** A request field as the store receives it. */
  datatype Param = Text(text: string) | Meta(metadata: Metadata) | Messages(messages: seq<Message>)

  /** The entries of a `{k: v ... if v is not None}` comprehension. */
  function NonNone(fields: map<string, Option<Param>>): (r: map<string, Param>)
    ensures forall k :: k in r <==> k in fields && fields[k].Some?
    ensures forall k :: k in r ==> r[k] == fields[k].value
  {
    map k | k in fields && fields[k].Some? :: fields[k].value
  }

  function TextField(s: Option<string>): Option<Param> {
    if s.Some? then Some(Text(s.value)) else None
  }

  datatype MemoryCreate = MemoryCreate(messages: seq<Message>, userId: Option<string>, agentId: Option<string>,
                                       runId: Option<string>, metadata: Option<Metadata>)

  /** `memory_create.model_dump()` */
  function Dump(req: MemoryCreate): map<string, Option<Param>> {
    map["messages" := Some(Messages(req.messages)),
        "user_id" := TextField(req.userId),
        "agent_id" := TextField(req.agentId),
        "run_id" := TextField(req.runId),
        "metadata" := if req.metadata.Some? then Some(Meta(req.metadata.value)) else None]
  }

  /** The keyword arguments `add_memory` forwards besides the messages. */
  function AddParams(req: MemoryCreate): map<string, Param> {
    NonNone(Dump(req)) - {"messages"}
  }

  /** `params[key] == value`, the key being present. */
  predicate Forwards(params: map<string, Param>, key: string, value: Param) {
    key in params && params[key] == value
  }

  /** The keys forwarded are those of the fields other than `messages` that are
      not `None`; an empty string counts as present. */
  lemma AddParamsKeys(req: MemoryCreate)
    ensures "messages" !in AddParams(req)
    ensures "user_id" in AddParams(req) <==> req.userId.Some?
    ensures "agent_id" in AddParams(req) <==> req.agentId.Some?
    ensures "run_id" in AddParams(req) <==> req.runId.Some?
    ensures "metadata" in AddParams(req) <==> req.metadata.Some?
  {
    var d := Dump(req);
    assert d.Keys == {"messages", "user_id", "agent_id", "run_id", "metadata"};
    assert d["user_id"] == TextField(req.userId) && d["agent_id"] == TextField(req.agentId);
    assert d["run_id"] == TextField(req.runId);
  }

  /** Each forwarded field keeps its own value, and nothing else is forwarded. */
  lemma AddParamsValues(req: MemoryCreate)
    ensures req.userId.Some? ==> Forwards(AddParams(req), "user_id", Text(req.userId.value))
    ensures req.agentId.Some? ==> Forwards(AddParams(req), "agent_id", Text(req.agentId.value))
    ensures req.runId.Some? ==> Forwards(AddParams(req), "run_id", Text(req.runId.value))
    ensures req.metadata.Some? ==> Forwards(AddParams(req), "metadata", Meta(req.metadata.value))
    ensures AddParams(req).Keys <= {"user_id", "agent_id", "run_id", "metadata"}
  {
    var d := Dump(req);
    assert d.Keys == {"messages", "user_id", "agent_id", "run_id", "metadata"};
    assert d["user_id"] == TextField(req.userId) && d["agent_id"] == TextField(req.agentId);
    assert d["run_id"] == TextField(req.runId);
  }

  /** Exactly the fields other than `messages` that are not `None` are forwarded,
      each with its own value; an empty string is forwarded too. */
  lemma AddParamsExact(req: MemoryCreate)
    ensures "messages" !in AddParams(req)
    ensures "user_id" in AddParams(req) <==> req.userId.Some?
    ensures "agent_id" in AddParams(req) <==> req.agentId.Some?
    ensures "run_id" in AddParams(req) <==> req.runId.Some?
    ensures "metadata" in AddParams(req) <==> req.metadata.Some?
    ensures req.userId.Some? ==> Forwards(AddParams(req), "user_id", Text(req.userId.value))
    ensures req.agentId.Some? ==> Forwards(AddParams(req), "agent_id", Text(req.agentId.value))
    ensures req.runId.Some? ==> Forwards(AddParams(req), "run_id", Text(req.runId.value))
    ensures req.metadata.Some? ==> Forwards(AddParams(req), "metadata", Meta(req.metadata.value))
    ensures AddParams(req).Keys <= {"user_id", "agent_id", "run_id", "metadata"}
  {
    AddParamsKeys(req);
    AddParamsValues(req);
  }

  /** `user_id or agent_id or run_id`: the first truthy one, else the last. */
  function Owner(userId: Option<string>, agentId: Option<string>, runId: Option<string>): (r: Option<string>)
    ensures AnyIdentifier(userId, agentId, runId) ==> Truthy(r)
    ensures Truthy(userId) ==> r == userId
    ensures !Truthy(userId) && Truthy(agentId) ==> r == agentId
    ensures !Truthy(userId) && !Truthy(agentId) ==> r == runId
  {
    if Truthy(userId) then userId else if Truthy(agentId) then agentId else runId
  }

  /** One entry of the store's `results`: `id` and `memory` are absent when the
      entry has no such key. */
  datatype StoredResult = StoredResult(id: Option<string>, memory: Option<string>)

  /** The arguments of one scheduled `_sync_to_neo4j_with_retry` task. */
  datatype SyncTask = SyncTask(memoryId: Option<string>, memoryText: string, userId: Option<string>,
                               metadata: Option<Metadata>)

  datatype AddAccepted = AddAccepted(params: map<string, Param>, tasks: seq<SyncTask>)

  const IDENTIFIER_REQUIRED_ADD := "At least one identifier (user_id, agent_id, run_id) is required."
  const IDENTIFIER_REQUIRED := "At least one identifier is required."

  /** `add_memory`. `results` is the `results` entry of the store's response
      (`None` when absent); the store call itself is not modelled. */
  method AddMemory(req: MemoryCreate, results: Option<seq<StoredResult>>) returns (r: Reply<AddAccepted>)
    ensures r.HttpError? <==> !AnyIdentifier(req.userId, req.agentId, req.runId)
    ensures r.HttpError? ==> r.status == 400 && r.detail == IDENTIFIER_REQUIRED_ADD
    ensures r.Ok? ==> r.value.params == AddParams(req)
    ensures r.Ok? ==> |r.value.tasks| == |results.GetOr([])|
    ensures r.Ok? ==> forall i :: 0 <= i < |r.value.tasks| ==>
      var res := results.value[i];
      r.value.tasks[i] == SyncTask(res.id, res.memory.GetOr(""), Owner(req.userId, req.agentId, req.runId), req.metadata)
  {
    if !AnyIdentifier(req.userId, req.agentId, req.runId) {
      return HttpError(400, IDENTIFIER_REQUIRED_ADD);
    }
    var params := AddParams(req);
    var tasks: seq<SyncTask> := [];
    if results.Some? && results.value != [] {
      var rs := results.value;
      for i := 0 to |rs|
        invariant |tasks| == i
        invariant forall j :: 0 <= j < i ==>
          tasks[j] == SyncTask(rs[j].id, rs[j].memory.GetOr(""), Owner(req.userId, req.agentId, req.runId), req.metadata)
      {
        var owner := Owner(req.userId, req.agentId, req.runId);
        tasks := tasks + [SyncTask(rs[i].id, rs[i].memory.GetOr(""), owner, req.metadata)];
      }
    }
    r := Ok(AddAccepted(params, tasks));
  }

  /** Every scheduled task is owned by a truthy identifier: the first given one. */
  lemma SyncOwnerIsFirstIdentifier(req: MemoryCreate)
    requires AnyIdentifier(req.userId, req.agentId, req.runId)
    ensures var o := Owner(req.userId, req.agentId, req.runId);
      && Truthy(o)
      && (o == req.userId || o == req.agentId || o == req.runId)
      && (Truthy(req.userId) ==> o == req.userId)
  {
  }

  /** The query parameters of `get_all_memories` and `delete_all_memories`. */
  function IdentifierParams(userId: Option<string>, runId: Option<string>, agentId: Option<string>): (r: map<string, Param>)
    ensures "user_id" in r <==> userId.Some?
    ensures "run_id" in r <==> runId.Some?
    ensures "agent_id" in r <==> agentId.Some?
    ensures r.Keys <= {"user_id", "run_id", "agent_id"}
  {
    NonNone(map["user_id" := TextField(userId), "run_id" := TextField(runId), "agent_id" := TextField(agentId)])
  }

  /** The store call an endpoint makes once its guards pass. */
  datatype StoreCall =
    | GetAll(params: map<string, Param>)
    | DeleteAll(params: map<string, Param>)
    | Get(memoryId: string)
    | Update(memoryId: string, data: map<string, string>)
    | History(memoryId: string)
    | Delete(memoryId: string)

  /** `get_all_memories(user_id, run_id, agent_id)` */
  function GetAllMemories(userId: Option<string>, runId: Option<string>, agentId: Option<string>): (r: Reply<StoreCall>)
    ensures r.HttpError? <==> !AnyIdentifier(userId, agentId, runId)
    ensures r.HttpError? ==> r.status == 400 && r.detail == IDENTIFIER_REQUIRED
    ensures r.Ok? ==> r.value.GetAll? && r.value.params == IdentifierParams(userId, runId, agentId)
  {
    if !AnyIdentifier(userId, agentId, runId) then HttpError(400, IDENTIFIER_REQUIRED)
    else Ok(GetAll(IdentifierParams(userId, runId, agentId)))
  }

  /** `delete_all_memories(user_id, run_id, agent_id)` */
  function DeleteAllMemories(userId: Option<string>, runId: Option<string>, agentId: Option<string>): (r: Reply<StoreCall>)
    ensures r.HttpError? <==> !AnyIdentifier(userId, agentId, runId)
    ensures r.HttpError? ==> r.status == 400 && r.detail == IDENTIFIER_REQUIRED
    ensures r.Ok? ==> r.value.DeleteAll? && r.value.params == IdentifierParams(userId, runId, agentId)
  {
    if !AnyIdentifier(userId, agentId, runId) then HttpError(400, IDENTIFIER_REQUIRED)
    else Ok(DeleteAll(IdentifierParams(userId, runId, agentId)))
  }

  /** The three endpoints that need an identifier refuse exactly the same requests. */
  lemma IdentifierGuardsAgree(req: MemoryCreate)
    ensures GetAllMemories(req.userId, req.runId, req.agentId).HttpError?
        <==> DeleteAllMemories(req.userId, req.runId, req.agentId).HttpError?
    ensures GetAllMemories(req.userId, req.runId, req.agentId).HttpError?
        <==> !AnyIdentifier(req.userId, req.agentId, req.runId)
  {
  }

  // ---------------------------------------------------------------------------
  // Ownership

  function AccessDenied(memoryId: string, userId: string): string {
    "Access denied: Memory " + memoryId + " does not belong to user " + userId
  }

  /** What `Memory.get(memory_id)` found: `None` for an unknown id, otherwise the
      stored memory's `user_id`, itself absent when the memory has none. */
  type Stored = Option<Option<string>>

  /** `memory.get(...)` on the `None` an unknown id yields raises AttributeError,
      which the endpoint's catch-all turns into a 500 with this text. */
  const NONE_HAS_NO_GET := "'NoneType' object has no attribute 'get'"

  /** A truthy `user_id` makes the endpoint look the memory up and read its owner. */
  predicate Missing(userId: Option<string>, stored: Stored) {
    Truthy(userId) && stored.None?
  }

  /** `if user_id and memory.get("user_id") != user_id`, on a memory that exists. */
  predicate Denied(userId: Option<string>, stored: Stored) {
    Truthy(userId) && stored.Some? && stored.value != userId
  }

  /** The ownership check shared by the four single-memory endpoints, guarding the
      store call `call`. */
  function Guard(memoryId: string, userId: Option<string>, stored: Stored, call: StoreCall): (r: Reply<StoreCall>)
    ensures r.Ok? <==> !Truthy(userId) || stored == Some(userId)
    ensures r.Ok? ==> r.value == call
    ensures r.HttpError? && r.status == 500 <==> Truthy(userId) && stored.None?
    ensures r.HttpError? && r.status == 500 ==> r.detail == NONE_HAS_NO_GET
    ensures r.HttpError? && r.status == 403 <==> Truthy(userId) && stored.Some? && stored.value != userId
    ensures r.HttpError? && r.status == 403 ==> r.detail == AccessDenied(memoryId, userId.value)
  {
    if Missing(userId, stored) then HttpError(500, NONE_HAS_NO_GET)
    else if Denied(userId, stored) then HttpError(403, AccessDenied(memoryId, userId.value))
    else Ok(call)
  }

  /** `get_memory(memory_id, user_id)`. Without a user id an unknown memory is
      answered with the store's `None`. */
  function GetMemory(memoryId: string, userId: Option<string>, stored: Stored): (r: Reply<StoreCall>)
    ensures r.Ok? <==> !Truthy(userId) || stored == Some(userId)
    ensures r.HttpError? ==> r.status == (if stored.None? then 500 else 403)
    ensures r.Ok? ==> r.value == Get(memoryId)
  {
    Guard(memoryId, userId, stored, Get(memoryId))
  }

  /** `update_memory(memory_id, updated_memory, user_id)` */
  function UpdateMemory(memoryId: string, data: map<string, string>, userId: Option<string>, stored: Stored): (r: Reply<StoreCall>)
    ensures r.Ok? <==> !Truthy(userId) || stored == Some(userId)
    ensures r.HttpError? ==> r.status == (if stored.None? then 500 else 403)
    ensures r.Ok? ==> r.value == Update(memoryId, data)
  {
    Guard(memoryId, userId, stored, Update(memoryId, data))
  }

  /** `memory_history(memory_id, user_id)` */
  function MemoryHistory(memoryId: string, userId: Option<string>, stored: Stored): (r: Reply<StoreCall>)
    ensures r.Ok? <==> !Truthy(userId) || stored == Some(userId)
    ensures r.HttpError? ==> r.status == (if stored.None? then 500 else 403)
    ensures r.Ok? ==> r.value == History(memoryId)
  {
    Guard(memoryId, userId, stored, History(memoryId))
  }

  /** `delete_memory(memory_id, user_id)` */
  function DeleteMemory(memoryId: string, userId: Option<string>, stored: Stored): (r: Reply<StoreCall>)
    ensures r.Ok? <==> !Truthy(userId) || stored == Some(userId)
    ensures r.HttpError? ==> r.status == (if stored.None? then 500 else 403)
    ensures r.Ok? ==> r.value == Delete(memoryId)
  {
    Guard(memoryId, userId, stored, Delete(memoryId))
  }

  /** The owner, and any request without a user id, always get through; for anyone
      else all four endpoints give the same answer: a 500 when the memory does not
      exist, otherwise the same 403. */
  lemma OwnershipUniform(memoryId: string, data: map<string, string>, userId: Option<string>, stored: Stored)
    ensures !Truthy(userId) || stored == Some(userId) ==>
      GetMemory(memoryId, userId, stored).Ok? && UpdateMemory(memoryId, data, userId, stored).Ok?
      && MemoryHistory(memoryId, userId, stored).Ok? && DeleteMemory(memoryId, userId, stored).Ok?
    ensures Missing(userId, stored) ==>
      var failure := HttpError(500, NONE_HAS_NO_GET);
      GetMemory(memoryId, userId, stored) == failure && UpdateMemory(memoryId, data, userId, stored) == failure
      && MemoryHistory(memoryId, userId, stored) == failure && DeleteMemory(memoryId, userId, stored) == failure
    ensures Denied(userId, stored) ==>
      var refusal := HttpError(403, AccessDenied(memoryId, userId.value));
      GetMemory(memoryId, userId, stored) == refusal && UpdateMemory(memoryId, data, userId, stored) == refusal
      && MemoryHistory(memoryId, userId, stored) == refusal && DeleteMemory(memoryId, userId, stored) == refusal
  {
  }

  // ---------------------------------------------------------------------------
  // Path lookup

  const NO_PATH := "No path found between memories"

  /** `find_memory_path(from_memory_id, to_memory_id)`. A query the driver refuses
      becomes a 500 carrying the driver's message `driverError`. */
  function FindMemoryPath(g: Graph, fromId: string, toId: string, driverError: string): (r: Reply<PathResult>)
    requires Valid(g)
    ensures r.HttpError? && r.status == 404 <==> FindPath(g, fromId, toId).NoPath?
    ensures r.HttpError? && r.status == 404 ==> r.detail == NO_PATH
    ensures r.Ok? <==> FindPath(g, fromId, toId).Found?
    ensures r.Ok? ==> r.value == FindPath(g, fromId, toId).path
  {
    match FindPath(g, fromId, toId)
    case Found(p) => Ok(p)
    case NoPath => HttpError(404, NO_PATH)
    case QueryError => HttpError(500, driverError)
  }

  /** The 404 comes back exactly when an end point is missing or the two memories
      are not connected by any chain of relationships. */
  lemma PathNotFoundExact(g: Graph, fromId: string, toId: string, driverError: string)
    requires Valid(g)
    ensures var r := FindMemoryPath(g, fromId, toId, driverError);
      (r.HttpError? && r.status == 404) <==>
        FindMemory(g, fromId).None? || FindMemory(g, toId).None? ||
        (var i, j := FindMemory(g, fromId).value, FindMemory(g, toId).value;
         i != j && forall t :: IsWalk(g, i, t, []) && InRange(g, t) ==> WalkEnd(g, i, t) != j)
  {
    FindPathNotFound(g, fromId, toId);
  }
}
