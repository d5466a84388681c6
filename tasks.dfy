/** The values of the task tracker and the pure functions its operations are specified by:
    identifier generation, lookup by identifier, status codes, list filters and the
    confirmation test used before a deletion. */
module Tasks {

  datatype Option<T> = None | Some(value: T)

  /** One task of the store. Timestamps are abstract clock readings. */
  datatype Task = Task(id: int, description: string, status: string, createdAt: int, updatedAt: int)

  const Todo: string := "todo"
  const InProgress: string := "in-progress"
  const Done: string := "done"

  /** The three statuses the tracker ever assigns. */
  predicate IsStatus(s: string) {
    s == Todo || s == InProgress || s == Done
  }

  ghost predicate ValidStatuses(ts: seq<Task>) {
    forall i :: 0 <= i < |ts| ==> IsStatus(ts[i].status)
  }

  ghost predicate UniqueIds(ts: seq<Task>) {
    forall i, j :: 0 <= i < j < |ts| ==> ts[i].id != ts[j].id
  }

  // ---------------------------------------------------------------- identifiers

  /** The running maximum of the identifiers, starting from 0, in store order. */
  function MaxId(ts: seq<Task>): (m: int)
    ensures m >= 0
    ensures forall i :: 0 <= i < |ts| ==> ts[i].id <= m
    ensures m == 0 || exists i :: 0 <= i < |ts| && ts[i].id == m
  {
    if ts == [] then 0
    else
      var m := MaxId(ts[..|ts| - 1]);
      assert forall i :: 0 <= i < |ts| - 1 ==> ts[..|ts| - 1][i] == ts[i];
      if ts[|ts| - 1].id > m then ts[|ts| - 1].id else m
  }

  /** The identifier the next added task receives. */
  function NextId(ts: seq<Task>): (n: int)
    ensures n >= 1
    ensures forall i :: 0 <= i < |ts| ==> ts[i].id < n
    ensures ts == [] ==> n == 1
    ensures n == 1 || exists i :: 0 <= i < |ts| && ts[i].id + 1 == n
  {
    MaxId(ts) + 1
  }

  /** NextId is the least positive integer above every identifier in the store. */
  lemma NextIdIsLeast(ts: seq<Task>, k: int)
    requires k >= 1
    requires forall i :: 0 <= i < |ts| ==> ts[i].id < k
    ensures NextId(ts) <= k
  {
    var n := NextId(ts);
    if n != 1 {
      var i :| 0 <= i < |ts| && ts[i].id + 1 == n;
    }
  }

  /** When some identifier is not negative, NextId is the maximum identifier plus one. */
  lemma NextIdIsMaxPlusOne(ts: seq<Task>, j: nat)
    requires j < |ts| && ts[j].id >= 0
    requires forall i :: 0 <= i < |ts| ==> ts[i].id <= ts[j].id
    ensures NextId(ts) == ts[j].id + 1
  {
    NextIdIsLeast(ts, ts[j].id + 1);
  }

  // ---------------------------------------------------------------- lookup

  /** The first index at or after k holding identifier id, or -1. */
  function IndexFrom(ts: seq<Task>, id: int, k: nat): (r: int)
    requires k <= |ts|
    ensures r == -1 || k <= r < |ts|
    ensures r == -1 <==> forall j :: k <= j < |ts| ==> ts[j].id != id
    ensures r >= 0 ==> ts[r].id == id && forall j :: k <= j < r ==> ts[j].id != id
    decreases |ts| - k
  {
    if k == |ts| then -1
    else if ts[k].id == id then k
    else IndexFrom(ts, id, k + 1)
  }

  /** The first index holding identifier id, or -1 when no task has it. */
  function IndexOf(ts: seq<Task>, id: int): (r: int)
    ensures -1 <= r < |ts|
    ensures r == -1 <==> forall j :: 0 <= j < |ts| ==> ts[j].id != id
    ensures r >= 0 ==> ts[r].id == id && forall j :: 0 <= j < r ==> ts[j].id != id
  {
    IndexFrom(ts, id, 0)
  }

  /** Splicing the task at index i out of a store with unique identifiers keeps them unique
      and leaves no task with the removed identifier. */
  lemma RemoveAtDropsId(ts: seq<Task>, i: nat, rest: seq<Task>)
    requires i < |ts| && UniqueIds(ts)
    requires rest == ts[..i] + ts[i + 1..]
    ensures UniqueIds(rest)
    ensures forall j :: 0 <= j < |rest| ==> rest[j].id != ts[i].id
  {
    assert forall j :: 0 <= j < |rest| ==> rest[j] == ts[if j < i then j else j + 1];
  }

  // ---------------------------------------------------------------- status and list codes

  /** The status chosen by a number entered at the mark prompt. */
  function StatusOfCode(code: string): (r: Option<string>)
    ensures r.Some? <==> code == "1" || code == "2" || code == "3"
    ensures r.Some? ==> IsStatus(r.value)
  {
    if code == "1" then Some(Todo)
    else if code == "2" then Some(InProgress)
    else if code == "3" then Some(Done)
    else None
  }

  /** The number listed beside a status in the mark menu. */
  function CodeOfStatus(s: string): (code: string)
    requires IsStatus(s)
    ensures StatusOfCode(code) == Some(s)
  {
    if s == Todo then "1" else if s == InProgress then "2" else "3"
  }

  /** Every accepted code is the one the menu lists for its status. */
  lemma StatusCodeIsCanonical(code: string)
    requires StatusOfCode(code).Some?
    ensures CodeOfStatus(StatusOfCode(code).value) == code
  {
  }

  /** The status a list option filters by; "" means no filter. */
  function ListFilter(option: string): (f: string)
    ensures f == "" || IsStatus(f)
    ensures f == "" <==> option != "2" && option != "3" && option != "4"
  {
    if option == "2" then Todo
    else if option == "3" then InProgress
    else if option == "4" then Done
    else ""
  }

  /** Whether a task is shown under a filter. */
  predicate Shown(t: Task, filter: string) {
    filter == "" || t.status == filter
  }

  /** The tasks shown under a filter, in store order. */
  function Select(ts: seq<Task>, filter: string): (r: seq<Task>)
    ensures |r| <= |ts|
  {
    if ts == [] then []
    else Select(ts[..|ts| - 1], filter) + (if Shown(ts[|ts| - 1], filter) then [ts[|ts| - 1]] else [])
  }

  /** xs is obtained from ys by dropping some elements and keeping the order of the rest. */
  ghost predicate IsSubseq<T>(xs: seq<T>, ys: seq<T>) {
    if xs == [] then true
    else if ys == [] then false
    else (xs[|xs| - 1] == ys[|ys| - 1] && IsSubseq(xs[..|xs| - 1], ys[..|ys| - 1]))
         || IsSubseq(xs, ys[..|ys| - 1])
  }

  lemma {:induction false} SelectIsSubseq(ts: seq<Task>, filter: string)
    ensures IsSubseq(Select(ts, filter), ts)
  {
    if ts != [] {
      var init := ts[..|ts| - 1];
      SelectIsSubseq(init, filter);
      if Shown(ts[|ts| - 1], filter) {
        assert Select(ts, filter)[..|Select(ts, filter)| - 1] == Select(init, filter);
      } else {
        assert Select(ts, filter) == Select(init, filter);
        SubseqOfInit(Select(init, filter), ts);
      }
    }
  }

  lemma {:induction false} SubseqOfInit<T>(xs: seq<T>, ys: seq<T>)
    requires ys != [] && IsSubseq(xs, ys[..|ys| - 1])
    ensures IsSubseq(xs, ys)
  {
  }

  /** Each task value occurs in the listing as often as in the store when it is shown,
      and not at all otherwise. */
  lemma {:induction false} SelectCount(ts: seq<Task>, filter: string, t: Task)
    ensures multiset(Select(ts, filter))[t] == if Shown(t, filter) then multiset(ts)[t] else 0
  {
    if ts != [] {
      var init, last := ts[..|ts| - 1], ts[|ts| - 1];
      SelectCount(init, filter, t);
      assert ts == init + [last];
      assert multiset(ts) == multiset(init) + multiset{last};
    }
  }

  /** A task is listed exactly when it is in the store and shown under the filter. */
  lemma SelectMembership(ts: seq<Task>, filter: string, t: Task)
    ensures t in Select(ts, filter) <==> t in ts && Shown(t, filter)
  {
    SelectCount(ts, filter, t);
    assert t in Select(ts, filter) <==> multiset(Select(ts, filter))[t] > 0;
    assert t in ts <==> multiset(ts)[t] > 0;
  }

  /** Without a filter the listing is the whole store. */
  lemma {:induction false} SelectAll(ts: seq<Task>)
    ensures Select(ts, "") == ts
  {
    if ts != [] {
      SelectAll(ts[..|ts| - 1]);
      assert ts == ts[..|ts| - 1] + [ts[|ts| - 1]];
    }
  }

  // ---------------------------------------------------------------- confirmation

  /** Lower-case mapping of the ASCII letters; every other character is kept. */
  function LowerChar(c: char): (l: char)
    ensures !('A' <= l <= 'Z')
    ensures ('a' <= l <= 'z') <==> ('a' <= c <= 'z' || 'A' <= c <= 'Z')
  {
    if 'A' <= c <= 'Z' then (c as int + 32) as char else c
  }

  function Lower(s: string): (r: string)
    ensures |r| == |s|
    ensures forall i :: 0 <= i < |s| ==> r[i] == LowerChar(s[i])
  {
    if s == [] then [] else [LowerChar(s[0])] + Lower(s[1..])
  }

  /** The answer lets a deletion proceed. */
  predicate IsAffirmative(confirm: string) {
    Lower(confirm) == "y" || Lower(confirm) == "yes"
  }

  /** The affirmative answers are "y" and "yes" in any mix of cases, and nothing else. */
  lemma AffirmativeAnswers(confirm: string)
    ensures IsAffirmative(confirm) <==>
      (|confirm| == 1 && confirm[0] in "yY") ||
      (|confirm| == 3 && confirm[0] in "yY" && confirm[1] in "eE" && confirm[2] in "sS")
  {
    var l := Lower(confirm);
    if |confirm| == 1 {
      assert l == "y" <==> l[0] == 'y';
    } else if |confirm| == 3 {
      assert l == "yes" <==> l[0] == 'y' && l[1] == 'e' && l[2] == 's';
    }
  }
}
