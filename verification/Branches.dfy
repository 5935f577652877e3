/** Branch ancestry: catalog, inherited replay scopes and the divergence of two
    timelines, computed from fork positions alone. */
module Branches {
  import opened Base
  import opened Format
  import opened ReadPlan

  const MAX_LINEAGE_DEPTH := 64

  datatype BranchStatus = Active | Archived

  datatype BranchInfo = BranchInfo(
    id: Id,
    name: Bytes,
    parent: Option<Id>,
    forkPosition: Option<nat>,
    createdAt: i64,
    metadata: Metadata,
    status: BranchStatus)

  const MAIN: Bytes := [0x6d, 0x61, 0x69, 0x6e]

  function DefaultBranch(): BranchInfo {
    BranchInfo(ZERO_ID, MAIN, None, None, 0, [], Active)
  }

  type BranchMap = map<Id, BranchInfo>

  // ── ancestry ───────────────────────────────────────────────────────────

  /** Walk from a branch to the root, newest first; `taken` branches are behind us. */
  function Lineage(m: BranchMap, current: Option<Id>, taken: nat): Result<seq<BranchInfo>>
    requires taken <= MAX_LINEAGE_DEPTH
    decreases MAX_LINEAGE_DEPTH - taken
  {
    if current.None? then Ok([])
    else if current.value !in m then Err(BranchNotFound)
    else if taken == MAX_LINEAGE_DEPTH then Err(InvalidBranchAncestry)
    else
      var branch := m[current.value];
      var older :- Lineage(m, branch.parent, taken + 1);
      Ok([branch] + older)
  }

  function Reversed<T>(s: seq<T>): (r: seq<T>)
    ensures |r| == |s| && forall i :: 0 <= i < |s| ==> r[i] == s[|s| - 1 - i]
  {
    seq(|s|, i requires 0 <= i < |s| => s[|s| - 1 - i])
  }

  /** The branch's ancestry, root first. */
  function Ancestry(m: BranchMap, id: Id): Result<seq<BranchInfo>> {
    var path :- Lineage(m, Some(id), 0);
    Ok(Reversed(path))
  }

  // ── replay scopes ──────────────────────────────────────────────────────

  function ForkOr(b: BranchInfo, upto: nat): nat {
    if b.forkPosition.Some? then b.forkPosition.value else upto
  }

  /** The exclusive bound under which the `i`-th node of a path is inherited: the least
      fork position of everything below it on the path. */
  function UpperAt(path: seq<BranchInfo>, i: nat, upto: nat): nat
    requires i < |path|
    decreases |path| - i
  {
    if i + 1 == |path| then upto
    else Min(UpperAt(path, i + 1, upto), ForkOr(path[i + 1], upto))
  }

  function ScopesOf(path: seq<BranchInfo>, upto: nat): (s: seq<(Id, nat)>)
    ensures |s| == |path| && forall i :: 0 <= i < |path| ==> s[i] == (path[i].id, UpperAt(path, i, upto))
  {
    seq(|path|, i requires 0 <= i < |path| => (path[i].id, UpperAt(path, i, upto)))
  }

  function ReplayScopes(m: BranchMap, id: Id, upto: nat): Result<seq<(Id, nat)>> {
    var path :- Ancestry(m, id);
    Ok(ScopesOf(path, upto))
  }

  /** A record is visible on a timeline: on some node of its path, below that node's bound. */
  predicate Visible(path: seq<BranchInfo>, upto: nat, branch: Id, position: nat) {
    exists i :: 0 <= i < |path| && path[i].id == branch && position < UpperAt(path, i, upto)
  }

  lemma VisibleIsInScopes(path: seq<BranchInfo>, upto: nat, branch: Id, position: nat)
    ensures Visible(path, upto, branch, position) <==> InScopes(branch, position, ScopesOf(path, upto))
  {
    var scopes := ScopesOf(path, upto);
    if i :| 0 <= i < |path| && path[i].id == branch && position < UpperAt(path, i, upto) {
      assert scopes[i].0 == branch && position < scopes[i].1;
    }
    if i :| 0 <= i < |scopes| && scopes[i].0 == branch && position < scopes[i].1 {
      assert path[i].id == branch;
    }
  }

  // ── divergence ─────────────────────────────────────────────────────────

  function SharedLength(left: seq<BranchInfo>, right: seq<BranchInfo>): (n: nat)
    ensures n <= |left| && n <= |right|
    ensures forall i :: 0 <= i < n ==> left[i].id == right[i].id
    ensures n < |left| && n < |right| ==> left[n].id != right[n].id
  {
    if left == [] || right == [] || left[0].id != right[0].id then 0
    else 1 + SharedLength(left[1..], right[1..])
  }

  /** The least of `until` and every fork position from the `i`-th node on. */
  function SideMin(path: seq<BranchInfo>, i: nat, until: nat): nat
    requires i <= |path|
    decreases |path| - i
  {
    if i == |path| then until
    else if path[i].forkPosition.Some? then Min(path[i].forkPosition.value, SideMin(path, i + 1, until))
    else SideMin(path, i + 1, until)
  }

  /** The deepest shared node and the exclusive position below which both timelines agree. */
  function DivergenceOf(left: seq<BranchInfo>, leftUntil: nat, right: seq<BranchInfo>, rightUntil: nat): (BranchInfo, nat)
    requires SharedLength(left, right) >= 1
  {
    var shared := SharedLength(left, right);
    (left[shared - 1], Min(SideMin(left, shared, leftUntil), SideMin(right, shared, rightUntil)))
  }

  /** Every node but the root was forked at some position. */
  predicate WellForked(path: seq<BranchInfo>) {
    forall i :: 1 <= i < |path| ==> path[i].forkPosition.Some?
  }

  /** Every record of a branch lies at or above the position the branch forked at. */
  predicate RespectsForks(path: seq<BranchInfo>, branch: Id, position: nat) {
    forall i :: 0 <= i < |path| && path[i].id == branch && path[i].forkPosition.Some? ==> position >= path[i].forkPosition.value
  }

  lemma {:induction false} UpperIsSideMin(path: seq<BranchInfo>, i: nat, until: nat)
    requires i < |path|
    ensures UpperAt(path, i, until) == SideMin(path, i + 1, until)
    decreases |path| - i
  {
    if i + 1 < |path| {
      UpperIsSideMin(path, i + 1, until);
      SideMinBelow(path, i + 2, until);
    }
  }

  lemma {:induction false} SideMinBelow(path: seq<BranchInfo>, i: nat, until: nat)
    requires i <= |path|
    ensures SideMin(path, i, until) <= until
    ensures forall j :: i <= j < |path| && path[j].forkPosition.Some? ==> SideMin(path, i, until) <= path[j].forkPosition.value
    decreases |path| - i
  {
    if i < |path| {
      SideMinBelow(path, i + 1, until);
    }
  }

  /** A bound over a whole tail is the bound over its first part, capped by the rest. */
  lemma {:induction false} SideMinSplits(path: seq<BranchInfo>, i: nat, k: nat, until: nat)
    requires i <= k <= |path|
    ensures SideMin(path, i, until) == SideMin(path[..k], i, SideMin(path, k, until))
    decreases k - i
  {
    if i < k {
      SideMinSplits(path, i + 1, k, until);
      assert path[..k][i] == path[i];
    }
  }

  /** Caps commute with lowering the end: only what lies below both matters. */
  lemma {:induction false} SideMinCap(path: seq<BranchInfo>, i: nat, low: nat, high: nat)
    requires i <= |path| && low <= high
    ensures SideMin(path, i, low) == Min(low, SideMin(path, i, high))
    decreases |path| - i
  {
    SideMinBelow(path, i, high);
    if i < |path| {
      SideMinCap(path, i + 1, low, high);
    }
  }

  /** Below the divergence, a path sees exactly what its shared prefix sees. */
  lemma BelowDivergence(path: seq<BranchInfo>, until: nat, k: nat, d: nat, branch: Id, position: nat)
    requires 1 <= k <= |path| && d <= SideMin(path, k, until)
    requires WellForked(path) && RespectsForks(path, branch, position) && position < d
    ensures Visible(path, until, branch, position) <==> Visible(path[..k], d, branch, position)
  {
    hide UpperAt, SideMin;
    var prefix := path[..k];
    forall i | 0 <= i < k
      ensures position < UpperAt(path, i, until) <==> position < UpperAt(prefix, i, d)
    {
      SameCapBelow(path, until, k, d, i, position);
    }
    forall i | k <= i < |path| ensures path[i].id != branch {
      SideMinBelow(path, k, until);
    }
    assert forall i :: 0 <= i < k ==> prefix[i].id == path[i].id;
  }

  lemma SameCapBelow(path: seq<BranchInfo>, until: nat, k: nat, d: nat, i: nat, position: nat)
    requires i < k <= |path| && d <= SideMin(path, k, until) && position < d
    ensures position < UpperAt(path, i, until) <==> position < UpperAt(path[..k], i, d)
  {
    hide UpperAt, SideMin;
    UpperIsSideMin(path, i, until);
    UpperIsSideMin(path[..k], i, d);
    SideMinSplits(path, i + 1, k, until);
    SideMinCap(path[..k], i + 1, d, SideMin(path, k, until));
  }

  /** Two timelines of one catalog share whole nodes, not just IDs. */
  predicate SharePrefix(left: seq<BranchInfo>, right: seq<BranchInfo>) {
    SharedLength(left, right) >= 1 && left[..SharedLength(left, right)] == right[..SharedLength(left, right)]
  }

  /** Past the shared part, two timelines have no branch in common. */
  ghost predicate Parted(left: seq<BranchInfo>, right: seq<BranchInfo>) {
    forall i, j :: SharedLength(left, right) <= i < |left| && SharedLength(left, right) <= j < |right| ==> left[i].id != right[j].id
  }

  /** DIFF identity: below the divergence both timelines, and the common ancestor's own
      timeline, see the same records, also when a fork lies below its parent's fork. */
  lemma TimelinesAgreeBelowDivergence(left: seq<BranchInfo>, leftUntil: nat, right: seq<BranchInfo>, rightUntil: nat, branch: Id, position: nat)
    requires SharePrefix(left, right) && WellForked(left) && WellForked(right)
    requires RespectsForks(left, branch, position) && RespectsForks(right, branch, position)
    requires position < DivergenceOf(left, leftUntil, right, rightUntil).1
    ensures var shared, d := left[..SharedLength(left, right)], DivergenceOf(left, leftUntil, right, rightUntil).1;
      && (Visible(left, leftUntil, branch, position) <==> Visible(shared, d, branch, position))
      && (Visible(right, rightUntil, branch, position) <==> Visible(shared, d, branch, position))
  {
    var k := SharedLength(left, right);
    var d := DivergenceOf(left, leftUntil, right, rightUntil).1;
    BelowDivergence(left, leftUntil, k, d, branch, position);
    BelowDivergence(right, rightUntil, k, d, branch, position);
  }

  lemma {:induction false} LastAtMinimum(path: seq<BranchInfo>, k: nat, until: nat, d: nat) returns (b: nat)
    requires k <= |path| && d == SideMin(path, k, until) && d < until
    ensures k <= b < |path| && path[b].forkPosition == Some(d) && d < UpperAt(path, b, until)
    decreases |path| - k
  {
    UpperIsSideMin(path, k, until);
    if SideMin(path, k + 1, until) == d {
      b := LastAtMinimum(path, k + 1, until, d);
    } else {
      b := k;
    }
  }

  ghost predicate DistinctIds(path: seq<BranchInfo>) {
    forall i, j :: 0 <= i < j < |path| ==> path[i].id != path[j].id
  }

  /** The divergence is maximal: if it lies below both ends, a record at exactly that
      position, allowed by the fork rule, can be visible to one timeline only. */
  lemma DivergenceIsMaximal(left: seq<BranchInfo>, leftUntil: nat, right: seq<BranchInfo>, rightUntil: nat) returns (branch: Id)
    requires SharePrefix(left, right)
    requires DistinctIds(left) && DistinctIds(right)
    requires Parted(left, right)
    requires var d := DivergenceOf(left, leftUntil, right, rightUntil).1; d < leftUntil && d < rightUntil
    ensures var d := DivergenceOf(left, leftUntil, right, rightUntil).1;
      && RespectsForks(left, branch, d) && RespectsForks(right, branch, d)
      && (Visible(left, leftUntil, branch, d) <==> !Visible(right, rightUntil, branch, d))
  {
    hide UpperAt, SideMin, SharedLength, Visible, RespectsForks;
    var k := SharedLength(left, right);
    var d := DivergenceOf(left, leftUntil, right, rightUntil).1;
    if SideMin(left, k, leftUntil) == d {
      branch := SeenFromOneSide(left, leftUntil, right, rightUntil, k, d);
    } else {
      branch := SeenFromOneSide(right, rightUntil, left, leftUntil, k, d);
    }
  }

  /** A branch forked at the minimum of one side may hold a record there that the other never sees. */
  lemma SeenFromOneSide(here: seq<BranchInfo>, until: nat, there: seq<BranchInfo>, thereUntil: nat, k: nat, d: nat) returns (branch: Id)
    requires k <= |here| && k <= |there| && here[..k] == there[..k] && DistinctIds(here)
    requires forall i, j :: k <= i < |here| && k <= j < |there| ==> here[i].id != there[j].id
    requires d == SideMin(here, k, until) && d < until
    ensures RespectsForks(here, branch, d) && RespectsForks(there, branch, d)
    ensures Visible(here, until, branch, d) && !Visible(there, thereUntil, branch, d)
  {
    hide UpperAt, SideMin;
    var b := LastAtMinimum(here, k, until, d);
    branch := here[b].id;
    OnlyOnOneSide(here, there, k, b);
  }

  lemma OnlyOnOneSide(here: seq<BranchInfo>, there: seq<BranchInfo>, k: nat, b: nat)
    requires k <= b < |here| && k <= |there| && here[..k] == there[..k] && DistinctIds(here)
    requires forall i, j :: k <= i < |here| && k <= j < |there| ==> here[i].id != there[j].id
    ensures forall j :: 0 <= j < |there| ==> there[j].id != here[b].id
  {
    forall j | 0 <= j < |there| ensures there[j].id != here[b].id {
      if j < k {
        assert there[j] == there[..k][j] == here[..k][j];
      }
    }
  }
}
