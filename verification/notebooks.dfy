/** `NotebookManager` (databricks_ops/notebooks.py): watching the tokenization
    job run, the workspace id in the host name, and the guarded notebook
    delete and listing. The workspace's answers are inputs: `observe(i)` is
    what the i-th status poll of the run saw, the host name, the object
    status of a path and the objects listed under a directory. The 30-second
    sleeps are the clock advancing by 30. */
module Notebooks {
  import opened Wrappers
  import opened Strings

  // ---------------------------------------------------------------------------
  // Monitoring a job run
  // ---------------------------------------------------------------------------

  /** One status poll: it raised, or it saw the run's life-cycle and result
      states (`None` when the run carries none). */
  datatype Poll = PollRaised | Observed(lifeCycle: Option<string>, result: Option<string>)

  datatype Verdict = Succeeded | Failed | Pending

  /** The life-cycle states that end the run as failed. */
  const FailedStates: seq<string> := ["INTERNAL_ERROR", "FAILED", "TIMEDOUT", "CANCELED", "SKIPPED"]

  /** What one poll decides. A missing state reads as `UNKNOWN`; a raised poll
      and any state not listed keep waiting. */
  function Classify(p: Poll): (v: Verdict) {
    match p
    case PollRaised => Pending
    case Observed(lifeCycle, result) =>
      var state := lifeCycle.GetOr("UNKNOWN");
      if state == "TERMINATED" then
        (if result.GetOr("UNKNOWN") == "SUCCESS" then Succeeded else Failed)
      else if state in FailedStates then Failed
      else Pending
  }

  /** A poll succeeds exactly when it sees `TERMINATED` with result `SUCCESS`;
      `TERMINATED` with any other or no result, and each failed state, fail;
      a poll that raised, sees no state, or sees any other state keeps
      waiting. */
  lemma ClassifyVerdicts(p: Poll, result: Option<string>, i: int, state: string)
    requires 0 <= i < |FailedStates|
    ensures Classify(PollRaised) == Pending
    ensures state != "TERMINATED" && state !in FailedStates ==> Classify(Observed(Some(state), result)) == Pending
    ensures Classify(p) == Succeeded <==> p == Observed(Some("TERMINATED"), Some("SUCCESS"))
    ensures result != Some("SUCCESS") ==> Classify(Observed(Some("TERMINATED"), result)) == Failed
    ensures Classify(Observed(Some(FailedStates[i]), result)) == Failed
    ensures Classify(Observed(None, result)) == Pending
  {
    assert "UNKNOWN" != "SUCCESS" && "UNKNOWN" != "TERMINATED";
    assert "UNKNOWN" !in FailedStates;
    assert "TERMINATED" !in FailedStates;
    if p.Observed? && p.lifeCycle.Some? && p.lifeCycle.value == "TERMINATED" && p.result.None? {
      assert Classify(p) == Failed;
    }
  }

  /** The most polls a timeout allows: `ceil(timeout_minutes * 60 / 30)`,
      none for a timeout that is not positive. */
  function PollLimit(timeoutMinutes: int): (limit: nat) {
    if timeoutMinutes <= 0 then 0 else 2 * timeoutMinutes
  }

  /** The first `n` polls all kept waiting. */
  predicate AllPending(observe: nat -> Poll, n: nat) {
    forall i: nat :: i < n ==> Classify(observe(i)) == Pending
  }

  /** `_monitor_job_execution_sdk`. Polls until a verdict or until the elapsed
      time reaches the timeout; `polls` counts the polls made and `elapsed`
      the seconds slept. The result is true exactly when, within the poll
      limit, a successful poll comes after nothing but waiting. */
  method MonitorJobExecution(timeoutMinutes: int, observe: nat -> Poll)
    returns (ok: bool, polls: nat, elapsed: int)
    ensures polls <= PollLimit(timeoutMinutes)
    ensures ok <==> exists k: nat :: k < PollLimit(timeoutMinutes) && Classify(observe(k)) == Succeeded
                                     && AllPending(observe, k)
    ensures ok ==> polls > 0 && Classify(observe(polls - 1)) == Succeeded && AllPending(observe, polls - 1)
    ensures !ok ==> || (polls > 0 && Classify(observe(polls - 1)) == Failed && AllPending(observe, polls - 1))
                    || (polls == PollLimit(timeoutMinutes) && AllPending(observe, polls))
    ensures elapsed == 30 * (if ok || (polls > 0 && Classify(observe(polls - 1)) == Failed) then polls - 1 else polls)
  {
    var maxWait := timeoutMinutes * 60;
    var waited := 0;
    polls := 0;
    while waited < maxWait
      invariant waited == 30 * polls
      invariant polls <= PollLimit(timeoutMinutes)
      invariant AllPending(observe, polls)
      decreases maxWait - waited
    {
      var verdict := Classify(observe(polls));
      polls := polls + 1;
      if verdict == Succeeded {
        return true, polls, waited;
      } else if verdict == Failed {
        NoLaterSuccess(observe, polls - 1, timeoutMinutes);
        return false, polls, waited;
      }
      waited := waited + 30;
    }
    assert polls == PollLimit(timeoutMinutes);
    NoLaterSuccess(observe, polls, timeoutMinutes);
    return false, polls, waited;
  }

  /** When the first `n` polls wait and poll `n`, if there is one within the
      limit, fails, no poll within the limit succeeds after
      nothing but waiting. */
  lemma NoLaterSuccess(observe: nat -> Poll, n: nat, timeoutMinutes: int)
    requires AllPending(observe, n)
    requires n < PollLimit(timeoutMinutes) ==> Classify(observe(n)) == Failed
    requires n <= PollLimit(timeoutMinutes)
    ensures !exists k: nat :: k < PollLimit(timeoutMinutes) && Classify(observe(k)) == Succeeded
                              && AllPending(observe, k)
  {
    forall k: nat | k < PollLimit(timeoutMinutes) && AllPending(observe, k)
      ensures Classify(observe(k)) != Succeeded
    {
      if k < n {
        assert Classify(observe(k)) == Pending;
      }
    }
  }

  // ---------------------------------------------------------------------------
  // The workspace id in the host name
  // ---------------------------------------------------------------------------

  /** `[a-f0-9]`. */
  predicate IsHex(c: char) {
    '0' <= c <= '9' || 'a' <= c <= 'f'
  }

  /** The end of the run of hex characters starting at `j`. */
  function HexRunEnd(s: string, j: nat): (e: nat)
    requires j <= |s|
    ensures j <= e <= |s|
    ensures forall k :: j <= k < e ==> IsHex(s[k])
    ensures e == |s| || !IsHex(s[e])
    decreases |s| - j
  {
    if j == |s| || !IsHex(s[j]) then j else HexRunEnd(s, j + 1)
  }

  /** `dbc-([a-f0-9]+)-` matches at `i`. The greedy run cannot give back a
      character to reach the closing `-`, which is not hex, so the pattern
      matches at `i` exactly when the whole hex run is non-empty and `-`
      follows it. */
  predicate MatchesAt(s: string, i: nat) {
    && i + 4 <= |s| && s[i..i + 4] == "dbc-"
    && var e := HexRunEnd(s, i + 4);
       e > i + 4 && e < |s| && s[e] == '-'
  }

  /** `re.search` from position `i`: the group of the leftmost match. */
  function SearchFrom(s: string, i: nat): (r: Option<string>)
    requires i <= |s|
    ensures r.None? <==> forall k: nat :: i <= k < |s| ==> !MatchesAt(s, k)
    ensures r.Some? ==> exists k: nat :: && i <= k < |s| && MatchesAt(s, k)
                                         && r.value == s[k + 4..HexRunEnd(s, k + 4)]
                                         && forall j: nat :: i <= j < k ==> !MatchesAt(s, j)
    ensures r.Some? ==> && |r.value| > 0
                        && (forall k :: 0 <= k < |r.value| ==> IsHex(r.value[k]))
                        && Contains(s, "dbc-" + r.value + "-")
    decreases |s| - i
  {
    if i == |s| then None
    else if MatchesAt(s, i) then
      MatchedId(s, i);
      Some(s[i + 4..HexRunEnd(s, i + 4)])
    else SearchFrom(s, i + 1)
  }

  /** The group of a match at `i` is non-empty lower-case hex, and the host
      holds it between `dbc-` and `-`. */
  lemma MatchedId(s: string, i: nat)
    requires MatchesAt(s, i)
    ensures var id := s[i + 4..HexRunEnd(s, i + 4)];
            && |id| > 0 && (forall k :: 0 <= k < |id| ==> IsHex(id[k]))
            && Contains(s, "dbc-" + id + "-")
  {
    var e := HexRunEnd(s, i + 4);
    var id := s[i + 4..e];
    assert s[i..e + 1] == s[i..i + 4] + s[i + 4..e] + s[e..e + 1];
    assert s[e..e + 1] == [s[e]];
    ContainsSlice(s, i, e + 1);
  }

  /** `_extract_workspace_id`: `None` for a missing host (the search raises)
      or no match; otherwise the group of the leftmost match. A found id is
      a non-empty run of lower-case hex that the host holds between `dbc-`
      and `-`. */
  function ExtractWorkspaceId(host: Option<string>): (id: Option<string>)
    ensures host.None? ==> id.None?
    ensures host.Some? ==> (id.None? <==> forall k: nat :: k < |host.value| ==> !MatchesAt(host.value, k))
    ensures id.Some? ==> exists k: nat :: && k < |host.value| && MatchesAt(host.value, k)
                                          && id.value == host.value[k + 4..HexRunEnd(host.value, k + 4)]
                                          && forall j: nat :: j < k ==> !MatchesAt(host.value, j)
    ensures id.Some? ==> && |id.value| > 0
                         && (forall k :: 0 <= k < |id.value| ==> IsHex(id.value[k]))
                         && Contains(host.value, "dbc-" + id.value + "-")
  {
    if host.None? then None else SearchFrom(host.value, 0)
  }

  /** Every slice of `s` is contained in `s`. */
  lemma {:induction false} ContainsSlice(s: string, i: nat, j: nat)
    requires i <= j <= |s|
    ensures Contains(s, s[i..j])
    decreases i
  {
    if i == 0 {
      assert s[i..j] == s[..j];
      assert IsPrefix(s[..j], s);
    } else {
      ContainsSlice(s[1..], i - 1, j - 1);
      assert s[1..][i - 1..j - 1] == s[i..j];
    }
  }

  /** The usual workspace host `https://dbc-<id>-<rest>` yields `<id>`, for a
      non-empty hex `<id>`. */
  lemma WorkspaceIdOfStandardHost(id: string, rest: string)
    requires |id| > 0 && forall k :: 0 <= k < |id| ==> IsHex(id[k])
    ensures ExtractWorkspaceId(Some("https://dbc-" + id + "-" + rest)) == Some(id)
  {
    var s := "https://dbc-" + id + "-" + rest;
    forall k: nat | k < 8
      ensures !MatchesAt(s, k)
    {
      assert s[k] == "https://"[k];
      assert s[k..k + 4][0] == s[k];
    }
    assert s[8..12] == "dbc-";
    HexRunEndOfRun(s, 12, 12 + |id|);
    assert s[12..12 + |id|] == id;
    assert MatchesAt(s, 8);
    var r := SearchFrom(s, 0);
    assert r.Some?;
    var k: nat :| 0 <= k < |s| && MatchesAt(s, k) && r.value == s[k + 4..HexRunEnd(s, k + 4)]
                  && forall j: nat :: 0 <= j < k ==> !MatchesAt(s, j);
    assert k == 8;
  }

  /** A run of hex characters ended by a non-hex one is what `HexRunEnd`
      measures. */
  lemma {:induction false} HexRunEndOfRun(s: string, j: nat, e: nat)
    requires j <= e < |s|
    requires forall k :: j <= k < e ==> IsHex(s[k])
    requires !IsHex(s[e])
    ensures HexRunEnd(s, j) == e
    decreases e - j
  {
    if j < e {
      HexRunEndOfRun(s, j + 1, e);
    }
  }

  // ---------------------------------------------------------------------------
  // Deleting and listing notebooks
  // ---------------------------------------------------------------------------

  datatype ObjectType = Notebook | Directory | File | Library | Repo

  /** A listed workspace object. */
  datatype WorkspaceObject = WorkspaceObject(path: string, objectType: ObjectType)

  /** `notebook_exists`: `status` is the object type `get_status` reports,
      `None` when it raised. */
  predicate NotebookExists(status: Option<ObjectType>) {
    status == Some(Notebook)
  }

  /** `delete_notebook`: `deleted` says whether the delete call was made. */
  function DeleteNotebook(status: Option<ObjectType>, deleteOk: bool): (r: (bool, bool))
    ensures !NotebookExists(status) ==> r == (true, false)
    ensures NotebookExists(status) ==> r == (deleteOk, true)
  {
    if !NotebookExists(status) then (true, false) else (deleteOk, true)
  }

  /** Only a notebook is ever deleted: a directory, a file, a missing path or
      a failed status lookup counts as done without a delete call, and
      deleting a notebook already gone succeeds. */
  lemma DeleteOnlyNotebooks(t: ObjectType, deleteOk: bool)
    ensures DeleteNotebook(Some(t), deleteOk).1 <==> t == Notebook
    ensures DeleteNotebook(None, deleteOk) == (true, false)
    ensures !DeleteNotebook(Some(t), deleteOk).0 ==> t == Notebook && !deleteOk
  {
  }

  /** The notebook paths among `objects`, in listing order. */
  function NotebookPaths(objects: seq<WorkspaceObject>): (paths: seq<string>)
    ensures |paths| <= |objects|
    ensures forall p :: p in paths <==> exists i :: 0 <= i < |objects| && objects[i] == WorkspaceObject(p, Notebook)
  {
    if |objects| == 0 then []
    else
      var rest := NotebookPaths(objects[1..]);
      assert forall i :: 1 <= i < |objects| ==> objects[i] == objects[1..][i - 1];
      if objects[0].objectType == Notebook then [objects[0].path] + rest else rest
  }

  /** The filter keeps listing order. */
  lemma {:induction false} NotebookPathsKeepOrder(a: seq<WorkspaceObject>, b: seq<WorkspaceObject>)
    ensures NotebookPaths(a + b) == NotebookPaths(a) + NotebookPaths(b)
    decreases |a|
  {
    if |a| == 0 {
      assert a + b == b;
    } else {
      assert (a + b)[0] == a[0];
      assert (a + b)[1..] == a[1..] + b;
      NotebookPathsKeepOrder(a[1..], b);
    }
  }

  /** `list_notebooks`: the notebook paths, or `[]` when the listing raised. */
  function ListNotebooks(listing: Option<seq<WorkspaceObject>>): (paths: seq<string>)
    ensures listing.None? ==> paths == []
    ensures listing.Some? ==> paths == NotebookPaths(listing.value)
  {
    match listing
    case None => []
    case Some(objects) => NotebookPaths(objects)
  }
}
