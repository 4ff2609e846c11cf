/** The process-wide debug log: a flag, the id of the current run, and the
    entries written under each run id, kept in the order the ids first
    appeared. The class holds these in static fields; here they are one
    state value threaded through the calls. */
module AmazonDebug {
  import opened Base
  import opened JsonValue

  /** The entries written while one run id was current. */
  datatype LogGroup = LogGroup(id: string, entries: seq<Json>)

  datatype DebugState = DebugState(debug: bool, id: Option<string>, log: seq<LogGroup>)

  /** The state before any call: debug off, no id, an empty log. */
  const Initial: DebugState := DebugState(false, None, [])

  function Ids(log: seq<LogGroup>): (ids: seq<string>)
    ensures |ids| == |log|
    ensures forall i :: 0 <= i < |log| ==> ids[i] == log[i].id
  {
    if |log| == 0 then [] else [log[0].id] + Ids(log[1..])
  }

  /** Each run id names at most one group, as array keys do. */
  predicate DistinctIds(log: seq<LogGroup>) {
    forall i, j :: 0 <= i < j < |log| ==> log[i].id != log[j].id
  }

  /** `$log[$k] ?? []`: the entries filed under `k`, or none. */
  function Entries(log: seq<LogGroup>, k: string): (r: seq<Json>)
    ensures k !in Ids(log) ==> r == []
    ensures k in Ids(log) ==> exists i :: 0 <= i < |log| && log[i] == LogGroup(k, r)
  {
    if |log| == 0 then []
    else if log[0].id == k then log[0].entries
    else Entries(log[1..], k)
  }

  /** `$log[$key][] = $data`: the entry joins the group for `key`, which is
      created at the end when it does not exist yet. */
  function Append(log: seq<LogGroup>, key: string, data: Json): (r: seq<LogGroup>)
    ensures key in Ids(log) ==> Ids(r) == Ids(log)
    ensures key !in Ids(log) ==> Ids(r) == Ids(log) + [key]
  {
    if |log| == 0 then [LogGroup(key, [data])]
    else if log[0].id == key then [LogGroup(key, log[0].entries + [data])] + log[1..]
    else [log[0]] + Append(log[1..], key, data)
  }

  /** `setId`: ignored while debugging is off; otherwise the given id, or
      `uniqid()` (the value `unique`) when none is given, becomes current. */
  function SetId(st: DebugState, id: Option<string>, unique: string): (r: DebugState)
    ensures r.debug == st.debug && r.log == st.log
    ensures !st.debug ==> r == st
    ensures st.debug ==> r.id.Some? && (id.Some? ==> r.id == id)
  {
    if !st.debug then st else st.(id := Some(id.GetOr(unique)))
  }

  /** `setDebug`: stores the flag, and when it is on starts a run through `setId`. */
  function SetDebug(st: DebugState, debug: bool, id: Option<string>, unique: string): (r: DebugState)
    ensures r.debug == debug && r.log == st.log
    ensures !debug ==> r.id == st.id
    ensures debug ==> r.id.Some? && (id.Some? ==> r.id == id)
  {
    SetId(st.(debug := debug), id, unique)
  }

  function GetDebug(st: DebugState): bool
  {
    st.debug
  }

  function GetId(st: DebugState): Option<string>
  {
    st.id
  }

  /** The group `writeLog` files under: `getId() ?? ''`. */
  function LogKey(st: DebugState): string
  {
    st.id.GetOr("")
  }

  /** `writeLog`: nothing while debugging is off; otherwise the entry is
      appended under the current id and every other id's entries stay as
      they were. The `array` type hint is not enforced here: every caller
      passes an array literal. */
  function WriteLog(st: DebugState, data: Json): (r: DebugState)
    ensures r.debug == st.debug && r.id == st.id
    ensures !st.debug ==> r == st
    ensures st.debug ==> Entries(r.log, LogKey(st)) == Entries(st.log, LogKey(st)) + [data]
    ensures forall k :: k != LogKey(st) ==> Entries(r.log, k) == Entries(st.log, k)
  {
    if !st.debug then st
    else
      AppendOnlyExtendsKey(st.log, LogKey(st), data);
      st.(log := Append(st.log, LogKey(st), data))
  }

  /** The log as a PHP array: an empty array, or one keyed by run id whose
      values are the lists of entries. */
  function LogJson(log: seq<LogGroup>): (r: Json)
    ensures IsArray(r)
  {
    if |log| == 0 then JArray([]) else JObject(LogMembers(log))
  }

  function LogMembers(log: seq<LogGroup>): (ms: seq<Member>)
    ensures |ms| == |log|
    ensures forall i :: 0 <= i < |log| ==> ms[i] == Member(log[i].id, JArray(log[i].entries))
  {
    if |log| == 0 then [] else [Member(log[0].id, JArray(log[0].entries))] + LogMembers(log[1..])
  }

  /** `getLog`: the whole log without an id, else the list for that id (empty
      when the id never logged). */
  function GetLog(st: DebugState, id: Option<string>): (r: Json)
    ensures IsArray(r)
    ensures id.Some? ==> r.JArray?
  {
    match id
    case None => LogJson(st.log)
    case Some(k) => JArray(Entries(st.log, k))
  }

  lemma {:induction false} AppendEntries(log: seq<LogGroup>, key: string, data: Json, k: string)
    ensures Entries(Append(log, key, data), k)
         == if k == key then Entries(log, k) + [data] else Entries(log, k)
    decreases |log|
  {
    if |log| > 0 && log[0].id != key {
      var r := Append(log, key, data);
      assert r[1..] == Append(log[1..], key, data);
      AppendEntries(log[1..], key, data, k);
    } else if |log| > 0 {
      var r := Append(log, key, data);
      assert r[1..] == log[1..];
    }
  }

  lemma AppendOnlyExtendsKey(log: seq<LogGroup>, key: string, data: Json)
    ensures Entries(Append(log, key, data), key) == Entries(log, key) + [data]
    ensures forall k :: k != key ==> Entries(Append(log, key, data), k) == Entries(log, k)
  {
    AppendEntries(log, key, data, key);
    forall k | k != key
      ensures Entries(Append(log, key, data), k) == Entries(log, k)
    {
      AppendEntries(log, key, data, k);
    }
  }

  lemma AppendKeepsDistinct(log: seq<LogGroup>, key: string, data: Json)
    requires DistinctIds(log)
    ensures DistinctIds(Append(log, key, data))
  {
    var r := Append(log, key, data);
    forall i, j | 0 <= i < j < |r|
      ensures r[i].id != r[j].id
    {
      assert Ids(r)[i] == r[i].id && Ids(r)[j] == r[j].id;
      if key !in Ids(log) && j == |log| {
        assert Ids(log)[i] == log[i].id;
      } else {
        assert Ids(log)[i] == log[i].id && Ids(log)[j] == log[j].id;
      }
    }
  }

  /** Reading the whole log by id gives the list `getLog($id)` returns, and
      ids that never logged are absent. */
  lemma {:induction false} LogLookup(log: seq<LogGroup>, k: string)
    ensures Find(LogMembers(log), k)
         == if k in Ids(log) then Some(JArray(Entries(log, k))) else None
    decreases |log|
  {
    if |log| > 0 {
      assert LogMembers(log)[1..] == LogMembers(log[1..]);
      assert Ids(log)[1..] == Ids(log[1..]);
      assert k in Ids(log) <==> k == log[0].id || k in Ids(log[1..]);
      LogLookup(log[1..], k);
    }
  }

  /** The two forms of `getLog` agree: the whole log, read at an id, is that
      id's list, and an id with no entries is not a key of it. */
  lemma GetLogAgrees(st: DebugState, k: string)
    ensures Get(GetLog(st, None), k)
         == if k in Ids(st.log) then Some(GetLog(st, Some(k))) else None
  {
    LogLookup(st.log, k);
  }

  /** With distinct ids and well-formed entries, the whole log is a value
      that `json_encode` and `json_decode` carry across unchanged. */
  lemma LogWellFormed(log: seq<LogGroup>)
    requires DistinctIds(log)
    requires forall i, j :: 0 <= i < |log| && 0 <= j < |log[i].entries| ==> WellFormed(log[i].entries[j])
    ensures WellFormed(LogJson(log))
  {
    if |log| > 0 {
      var ms := LogMembers(log);
      assert DistinctKeys(ms);
      MembersOfLogWellFormed(log);
    }
  }

  lemma {:induction false} MembersOfLogWellFormed(log: seq<LogGroup>)
    requires forall i, j :: 0 <= i < |log| && 0 <= j < |log[i].entries| ==> WellFormed(log[i].entries[j])
    ensures MembersWellFormed(LogMembers(log))
    decreases |log|
  {
    if |log| > 0 {
      ItemsOfWellFormed(log[0].entries);
      assert LogMembers(log)[1..] == LogMembers(log[1..]);
      MembersOfLogWellFormed(log[1..]);
    }
  }

  lemma {:induction false} ItemsOfWellFormed(items: seq<Json>)
    requires forall j :: 0 <= j < |items| ==> WellFormed(items[j])
    ensures ItemsWellFormed(items)
    decreases |items|
  {
    if |items| > 0 {
      ItemsOfWellFormed(items[1..]);
    }
  }

  /** Every entry is a well-formed value nested at most `d` deep. */
  predicate EntriesBounded(log: seq<LogGroup>, d: nat) {
    forall i, j :: 0 <= i < |log| && 0 <= j < |log[i].entries| ==>
      WellFormed(log[i].entries[j]) && Depth(log[i].entries[j]) <= d
  }

  /** A log whose ids are distinct and whose entries are arrays nested at
      most two deep, which is all `AWS` and the client ever write. */
  predicate Sound(st: DebugState) {
    DistinctIds(st.log) && EntriesBounded(st.log, 2)
  }

  lemma {:induction false} ItemsDepthBound(items: seq<Json>, d: nat)
    requires forall j :: 0 <= j < |items| ==> Depth(items[j]) <= d
    ensures ItemsDepth(items) <= d
    decreases |items|
  {
    if |items| > 0 {
      ItemsDepthBound(items[1..], d);
    }
  }

  lemma {:induction false} LogMembersDepthBound(log: seq<LogGroup>, d: nat)
    requires EntriesBounded(log, d)
    ensures MembersDepth(LogMembers(log)) <= d + 1
    decreases |log|
  {
    if |log| > 0 {
      ItemsDepthBound(log[0].entries, d);
      assert LogMembers(log)[1..] == LogMembers(log[1..]);
      LogMembersDepthBound(log[1..], d);
    }
  }

  /** A sound log is a value `json_encode` accepts inside one more level and
      `json_decode` reads back unchanged. */
  lemma SoundLogEncodes(st: DebugState)
    requires Sound(st)
    ensures WellFormed(GetLog(st, None)) && Depth(GetLog(st, None)) <= 4
  {
    LogWellFormed(st.log);
    if |st.log| > 0 {
      LogMembersDepthBound(st.log, 2);
    }
  }

  lemma {:induction false} AppendBounded(log: seq<LogGroup>, key: string, data: Json, d: nat)
    requires EntriesBounded(log, d)
    requires WellFormed(data) && Depth(data) <= d
    ensures EntriesBounded(Append(log, key, data), d)
    decreases |log|
  {
    if |log| > 0 && log[0].id != key {
      AppendBounded(log[1..], key, data, d);
      var r := Append(log, key, data);
      assert r == [log[0]] + Append(log[1..], key, data);
      forall i, j | 0 <= i < |r| && 0 <= j < |r[i].entries|
        ensures WellFormed(r[i].entries[j]) && Depth(r[i].entries[j]) <= d
      {
        if i > 0 {
          assert r[i] == Append(log[1..], key, data)[i - 1];
        }
      }
    } else if |log| > 0 {
      var r := Append(log, key, data);
      forall i, j | 0 <= i < |r| && 0 <= j < |r[i].entries|
        ensures WellFormed(r[i].entries[j]) && Depth(r[i].entries[j]) <= d
      {
        if i == 0 && j < |log[0].entries| {
          assert r[0].entries[j] == log[0].entries[j];
        } else if i > 0 {
          assert r[i] == log[i];
        }
      }
    }
  }

  /** Writing an entry at most two deep keeps the log sound. */
  lemma WriteLogKeepsSound(st: DebugState, data: Json)
    requires Sound(st)
    requires WellFormed(data) && Depth(data) <= 2
    ensures Sound(WriteLog(st, data))
  {
    if st.debug {
      AppendKeepsDistinct(st.log, LogKey(st), data);
      AppendBounded(st.log, LogKey(st), data, 2);
    }
  }

  /** The calls a program makes on the debug log. */
  datatype Op =
    | SetDebugOp(on: bool, runId: Option<string>, unique: string)
    | WriteLogOp(data: Json)

  function Step(st: DebugState, op: Op): DebugState
  {
    match op
    case SetDebugOp(on, runId, unique) => SetDebug(st, on, runId, unique)
    case WriteLogOp(data) => WriteLog(st, data)
  }

  function Run(st: DebugState, ops: seq<Op>): DebugState
    decreases |ops|
  {
    if |ops| == 0 then st else Run(Step(st, ops[0]), ops[1..])
  }

  /** Nothing is ever removed from the log: whatever the calls, every id's
      entries only grow at the end. */
  lemma {:induction false} RunExtendsEntries(st: DebugState, ops: seq<Op>, k: string)
    ensures Entries(st.log, k) <= Entries(Run(st, ops).log, k)
    decreases |ops|
  {
    if |ops| > 0 {
      var next := Step(st, ops[0]);
      assert Entries(st.log, k) <= Entries(next.log, k);
      RunExtendsEntries(next, ops[1..], k);
    }
  }

  /** Every id names one group at every point of a run started from a valid log. */
  lemma {:induction false} RunKeepsDistinct(st: DebugState, ops: seq<Op>)
    requires DistinctIds(st.log)
    ensures DistinctIds(Run(st, ops).log)
    decreases |ops|
  {
    if |ops| > 0 {
      var next := Step(st, ops[0]);
      if ops[0].WriteLogOp? && st.debug {
        AppendKeepsDistinct(st.log, LogKey(st), ops[0].data);
      }
      RunKeepsDistinct(next, ops[1..]);
    }
  }

  /** While debugging stays off no call records anything. */
  lemma {:induction false} RunWhileOffLogsNothing(st: DebugState, ops: seq<Op>)
    requires !st.debug
    requires forall i :: 0 <= i < |ops| ==> ops[i].WriteLogOp? || !ops[i].on
    ensures Run(st, ops).log == st.log
    decreases |ops|
  {
    if |ops| > 0 {
      RunWhileOffLogsNothing(Step(st, ops[0]), ops[1..]);
    }
  }

  /** Turning debugging on starts a run under the given id, and the next
      entry is filed under it. */
  lemma StartRunThenWrite(st: DebugState, id: string, unique: string, data: Json)
    ensures GetDebug(SetDebug(st, true, Some(id), unique))
    ensures GetId(SetDebug(st, true, Some(id), unique)) == Some(id)
    ensures GetLog(WriteLog(SetDebug(st, true, Some(id), unique), data), Some(id))
         == JArray(Entries(st.log, id) + [data])
  {
  }
}
