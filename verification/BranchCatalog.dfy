/** The branch catalog: what insert and archive accept, and why ancestry walks over it
    always end at the default branch. */
module BranchCatalogs {
  import opened Base
  import opened Format
  import opened Branches

  datatype Catalog = Catalog(byId: BranchMap, byName: map<Bytes, Id>)

  function DefaultCatalog(): Catalog {
    Catalog(map[ZERO_ID := DefaultBranch()], map[MAIN := ZERO_ID])
  }

  // ── what the operations accept ─────────────────────────────────────────

  /** Walk up from `parent`; the new branch may not be met and the root must be near. */
  function DepthVerdict(m: BranchMap, parent: Option<Id>, id: Id, steps: nat): Result<()>
    decreases steps
  {
    if steps == 0 then Err(InvalidBranchAncestry)
    else if parent.None? then Ok(())
    else if parent.value == id then Err(InvalidBranchAncestry)
    else DepthVerdict(m, if parent.value in m then m[parent.value].parent else None, id, steps - 1)
  }

  function WithBranch(c: Catalog, info: BranchInfo): Result<Catalog> {
    if info.id in c.byId || info.name in c.byName then Err(BranchExists)
    else if info.parent.Some? && info.parent.value !in c.byId then Err(BranchNotFound)
    else
      var _ :- DepthVerdict(c.byId, info.parent, info.id, MAX_LINEAGE_DEPTH);
      Ok(Catalog(c.byId[info.id := info], c.byName[info.name := info.id]))
  }

  function WithArchived(c: Catalog, archived: BranchInfo): Result<Catalog> {
    if archived.id !in c.byId then Err(BranchNotFound)
    else if archived.id == ZERO_ID then Err(InvalidArgument)
    else if archived != c.byId[archived.id].(status := Archived) then Err(InvalidBranchAncestry)
    else Ok(c.(byId := c.byId[archived.id := archived]))
  }

  // ── rebuilding from the log's branch frames ────────────────────────────

  datatype BranchEntry = Created(info: BranchInfo) | ArchivedAs(info: BranchInfo) | Unrelated

  function EntryApplied(c: Catalog, e: BranchEntry): Result<Catalog> {
    match e
    case Created(info) => WithBranch(c, info)
    case ArchivedAs(info) => WithArchived(c, info)
    case Unrelated => Ok(c)
  }

  function ReplayedEntries(entries: seq<BranchEntry>): Result<Catalog>
    decreases |entries|
  {
    if entries == [] then Ok(DefaultCatalog())
    else
      var before :- ReplayedEntries(entries[..|entries| - 1]);
      EntryApplied(before, entries[|entries| - 1])
  }

  /** An error anywhere in the log is the error of the whole rebuild. */
  lemma {:induction false} ErrorsStop(entries: seq<BranchEntry>, n: nat)
    requires n <= |entries| && ReplayedEntries(entries[..n]).Err?
    ensures ReplayedEntries(entries) == ReplayedEntries(entries[..n])
    decreases |entries| - n
  {
    if n == |entries| {
      assert entries[..n] == entries;
    } else {
      assert entries[..n + 1][..n] == entries[..n];
      ErrorsStop(entries, n + 1);
    }
  }

  // ── the invariant ──────────────────────────────────────────────────────

  ghost predicate ValidBranches(m: BranchMap) {
    && ZERO_ID in m && m[ZERO_ID].parent.None? && m[ZERO_ID].forkPosition.None?
    && (forall id :: id in m ==> m[id].id == id)
    && (forall id :: id in m && id != ZERO_ID ==>
          m[id].parent.Some? && m[id].parent.value in m && m[id].forkPosition.Some?)
    && (forall id :: id in m ==> Lineage(m, Some(id), 0).Ok?)
  }

  lemma {:induction false} LineageForgets(m: BranchMap, current: Option<Id>, low: nat, high: nat)
    requires low <= high <= MAX_LINEAGE_DEPTH && Lineage(m, current, high).Ok?
    ensures Lineage(m, current, low) == Lineage(m, current, high)
    decreases MAX_LINEAGE_DEPTH - high
  {
    if current.Some? {
      LineageForgets(m, m[current.value].parent, low + 1, high + 1);
    }
  }

  /** The lineage of a node is the node and its parent's lineage. */
  lemma LineageOfParent(m: BranchMap, id: Id)
    requires Lineage(m, Some(id), 0).Ok?
    ensures id in m
    ensures Lineage(m, m[id].parent, 0).Ok?
    ensures Lineage(m, Some(id), 0).value == [m[id]] + Lineage(m, m[id].parent, 0).value
  {
    LineageForgets(m, m[id].parent, 0, 1);
  }

  lemma {:induction false} LineageLength(m: BranchMap, current: Option<Id>, taken: nat)
    requires taken <= MAX_LINEAGE_DEPTH && Lineage(m, current, taken).Ok?
    ensures |Lineage(m, current, taken).value| + taken <= MAX_LINEAGE_DEPTH
    decreases MAX_LINEAGE_DEPTH - taken
  {
    if current.Some? {
      LineageLength(m, m[current.value].parent, taken + 1);
    }
  }

  lemma {:induction false} LineageFits(m: BranchMap, current: Option<Id>, taken: nat)
    requires taken <= MAX_LINEAGE_DEPTH && Lineage(m, current, 0).Ok?
    requires |Lineage(m, current, 0).value| + taken <= MAX_LINEAGE_DEPTH
    ensures Lineage(m, current, taken) == Lineage(m, current, 0)
    decreases |Lineage(m, current, 0).value|
  {
    if current.Some? {
      LineageOfParent(m, current.value);
      LineageFits(m, m[current.value].parent, taken + 1);
    }
  }

  /** Branches added later do not change the lineage of the ones already there. */
  lemma {:induction false} LineageUnchanged(m: BranchMap, n: BranchMap, current: Option<Id>, taken: nat)
    requires taken <= MAX_LINEAGE_DEPTH && Lineage(m, current, taken).Ok?
    requires forall id :: id in m ==> id in n && n[id] == m[id]
    ensures Lineage(n, current, taken) == Lineage(m, current, taken)
    decreases MAX_LINEAGE_DEPTH - taken
  {
    if current.Some? {
      LineageUnchanged(m, n, m[current.value].parent, taken + 1);
    }
  }

  lemma {:induction false} DepthIsLineage(m: BranchMap, parent: Option<Id>, id: Id, steps: nat)
    requires id !in m && (parent.Some? ==> parent.value in m) && Lineage(m, parent, 0).Ok?
    requires ValidBranches(m)
    ensures DepthVerdict(m, parent, id, steps).Ok? <==> |Lineage(m, parent, 0).value| < steps
    decreases steps
  {
    hide ValidBranches;
    if steps > 0 && parent.Some? {
      LineageOfParent(m, parent.value);
      ParentKnown(m, parent.value);
      DepthIsLineage(m, m[parent.value].parent, id, steps - 1);
    }
  }

  lemma ParentKnown(m: BranchMap, id: Id)
    requires ValidBranches(m) && id in m
    ensures m[id].parent.Some? ==> m[id].parent.value in m
  {
  }

  lemma DefaultIsValid()
    ensures ValidBranches(DefaultCatalog().byId)
  {
    var m := DefaultCatalog().byId;
    assert Lineage(m, None, 1).Ok?;
    assert m[ZERO_ID].parent == None;
  }

  /** A fork of a known branch keeps the catalog well-formed. */
  lemma InsertKeepsValid(c: Catalog, info: BranchInfo)
    requires ValidBranches(c.byId) && WithBranch(c, info).Ok? && info.parent.Some? && info.forkPosition.Some?
    ensures ValidBranches(WithBranch(c, info).value.byId)
  {
    hide Lineage, DepthVerdict;
    var m, n := c.byId, WithBranch(c, info).value.byId;
    DepthIsLineage(m, info.parent, info.id, MAX_LINEAGE_DEPTH);
    forall id | id in n ensures Lineage(n, Some(id), 0).Ok? {
      if id == info.id {
        LineageFits(m, info.parent, 1);
        LineageUnchanged(m, n, info.parent, 1);
        LineageOfNew(n, id);
      } else {
        LineageUnchanged(m, n, Some(id), 0);
      }
    }
  }

  lemma LineageOfNew(m: BranchMap, id: Id)
    requires id in m && Lineage(m, m[id].parent, 1).Ok?
    ensures Lineage(m, Some(id), 0).Ok?
  {
  }

  /** Same branches, same parents: lineages correspond node by node. */
  lemma {:induction false} LineageOfSameShape(m: BranchMap, n: BranchMap, current: Option<Id>, taken: nat)
    requires taken <= MAX_LINEAGE_DEPTH && Lineage(m, current, taken).Ok?
    requires forall id :: id in m ==> id in n && n[id].parent == m[id].parent
    ensures Lineage(n, current, taken).Ok?
    decreases MAX_LINEAGE_DEPTH - taken
  {
    if current.Some? {
      LineageOfSameShape(m, n, m[current.value].parent, taken + 1);
    }
  }

  lemma ArchiveKeepsValid(c: Catalog, archived: BranchInfo)
    requires ValidBranches(c.byId) && WithArchived(c, archived).Ok?
    ensures ValidBranches(WithArchived(c, archived).value.byId)
  {
    var m, n := c.byId, WithArchived(c, archived).value.byId;
    forall id | id in n ensures Lineage(n, Some(id), 0).Ok? {
      LineageOfSameShape(m, n, Some(id), 0);
    }
  }

  // ── paths of a valid catalog ───────────────────────────────────────────

  /** Root first, each node the parent of the next, each node as the catalog has it. */
  ghost predicate IsPath(m: BranchMap, path: seq<BranchInfo>, id: Id) {
    && path != [] && path[|path| - 1].id == id && path[0].id == ZERO_ID
    && (forall i :: 0 <= i < |path| ==> path[i].id in m && m[path[i].id] == path[i])
    && (forall i :: 0 <= i < |path| - 1 ==> path[i + 1].parent == Some(path[i].id))
    && (forall i :: 0 <= i < |path| ==> (path[i].parent.None? <==> i == 0))
  }

  lemma ReversedSnoc<T>(x: T, s: seq<T>)
    ensures Reversed([x] + s) == Reversed(s) + [x]
  {
  }

  lemma {:induction false} AncestryIsPath(m: BranchMap, id: Id)
    requires ValidBranches(m) && id in m
    ensures Ancestry(m, id).Ok? && IsPath(m, Ancestry(m, id).value, id)
    ensures m[id].parent.Some? ==> Ancestry(m, m[id].parent.value).Ok? && Ancestry(m, id).value == Ancestry(m, m[id].parent.value).value + [m[id]]
    decreases if Lineage(m, Some(id), 0).Ok? then |Lineage(m, Some(id), 0).value| else 0
  {
    LineageOfParent(m, id);
    var older := Lineage(m, m[id].parent, 0).value;
    ReversedSnoc(m[id], older);
    if m[id].parent.Some? {
      AncestryIsPath(m, m[id].parent.value);
    }
  }

  /** A prefix of an ancestry is the ancestry of its last node. */
  lemma {:induction false} PrefixIsAncestry(m: BranchMap, id: Id, i: nat)
    requires ValidBranches(m) && id in m && Ancestry(m, id).Ok? && i < |Ancestry(m, id).value|
    ensures Ancestry(m, Ancestry(m, id).value[i].id) == Ok(Ancestry(m, id).value[..i + 1])
    decreases |Ancestry(m, id).value|
  {
    hide ValidBranches, Ancestry;
    AncestryIsPath(m, id);
    ParentKnown(m, id);
    var path := Ancestry(m, id).value;
    if i + 1 == |path| {
      assert path[..i + 1] == path;
    } else {
      var older := Ancestry(m, m[id].parent.value).value;
      PrefixIsAncestry(m, m[id].parent.value, i);
      assert older[i] == path[i] && older[..i + 1] == path[..i + 1];
    }
  }

  lemma {:induction false} SamePrefixIsShared(left: seq<BranchInfo>, right: seq<BranchInfo>, n: nat)
    requires n <= |left| && n <= |right| && left[..n] == right[..n]
    ensures SharedLength(left, right) >= n
    decreases n
  {
    if n > 0 {
      assert left[..n][0] == right[..n][0];
      assert left[1..][..n - 1] == left[..n][1..] && right[1..][..n - 1] == right[..n][1..];
      SamePrefixIsShared(left[1..], right[1..], n - 1);
    }
  }

  /** Two paths of one catalog share whole nodes. */
  lemma PathsShareNodes(m: BranchMap, left: Id, right: Id, l: seq<BranchInfo>, r: seq<BranchInfo>)
    requires IsPath(m, l, left) && IsPath(m, r, right)
    ensures SharePrefix(l, r)
  {
    var k := SharedLength(l, r);
    forall i | 0 <= i < k ensures l[i] == r[i] {
      assert l[i].id == r[i].id;
    }
    assert l[..k] == r[..k];
  }

  /** Once two paths part they never meet again. */
  lemma PathsNeverMeetAgain(m: BranchMap, left: Id, right: Id)
    requires ValidBranches(m) && left in m && right in m && Ancestry(m, left).Ok? && Ancestry(m, right).Ok?
    ensures Parted(Ancestry(m, left).value, Ancestry(m, right).value)
  {
    hide ValidBranches, Ancestry, SharedLength;
    var l, r := Ancestry(m, left).value, Ancestry(m, right).value;
    forall i, j | SharedLength(l, r) <= i < |l| && SharedLength(l, r) <= j < |r| ensures l[i].id != r[j].id {
      if l[i].id == r[j].id {
        PrefixIsAncestry(m, left, i);
        PrefixIsAncestry(m, right, j);
        assert |l[..i + 1]| == i + 1 && |r[..j + 1]| == j + 1;
        SamePrefixIsShared(l, r, i + 1);
      }
    }
  }

  /** Any two timelines of a well-formed catalog meet what the divergence theorems ask. */
  lemma PathsAreTrees(m: BranchMap, left: Id, right: Id)
    requires ValidBranches(m) && left in m && right in m
    ensures Ancestry(m, left).Ok? && Ancestry(m, right).Ok?
    ensures var l, r := Ancestry(m, left).value, Ancestry(m, right).value;
      SharePrefix(l, r) && WellForked(l) && WellForked(r) && DistinctIds(l) && DistinctIds(r) && Parted(l, r)
  {
    hide ValidBranches, Ancestry, IsPath, SharePrefix, WellForked, DistinctIds, Parted;
    AncestryIsPath(m, left);
    AncestryIsPath(m, right);
    var l, r := Ancestry(m, left).value, Ancestry(m, right).value;
    PathsShareNodes(m, left, right, l, r);
    PathsNeverMeetAgain(m, left, right);
    NodesAreDistinct(m, left);
    NodesAreDistinct(m, right);
    PathIsWellForked(m, l, left);
    PathIsWellForked(m, r, right);
  }

  lemma PathIsWellForked(m: BranchMap, path: seq<BranchInfo>, id: Id)
    requires ValidBranches(m) && IsPath(m, path, id)
    ensures WellForked(path)
  {
    forall i | 1 <= i < |path| ensures path[i].forkPosition.Some? {
      assert path[i].parent.Some? && m[path[i].id] == path[i];
    }
  }

  lemma NodesAreDistinct(m: BranchMap, id: Id)
    requires ValidBranches(m) && id in m
    ensures Ancestry(m, id).Ok? && DistinctIds(Ancestry(m, id).value)
  {
    hide ValidBranches;
    AncestryIsPath(m, id);
    var path := Ancestry(m, id).value;
    forall i, j | 0 <= i < j < |path| ensures path[i].id != path[j].id {
      PrefixIsAncestry(m, id, i);
      PrefixIsAncestry(m, id, j);
      assert |path[..i + 1]| != |path[..j + 1]|;
    }
  }

  lemma KnownHasAncestry(m: BranchMap, id: Id)
    requires ValidBranches(m)
    ensures if id in m then Ancestry(m, id).Ok? else Ancestry(m, id) == Err(BranchNotFound)
  {
    if id in m {
      AncestryIsPath(m, id);
    }
  }

  // ── the object ─────────────────────────────────────────────────────────

  /** The running minimum over the path, newest first. */
  method CascadeCaps(ancestry: seq<BranchInfo>, upto: nat) returns (scopes: seq<(Id, nat)>)
    ensures scopes == ScopesOf(ancestry, upto)
  {
    hide ScopesOf;
    var upper := upto;
    scopes := [];
    var index := |ancestry|;
    ghost var all := ScopesOf(ancestry, upto);
    while index > 0
      invariant 0 <= index <= |ancestry|
      invariant upper == if index == |ancestry| then upto else UpperAt(ancestry, index, upto)
      invariant scopes == all[index..]
    {
      assert all[index - 1..] == [all[index - 1]] + all[index..];
      index := index - 1;
      if index + 1 < |ancestry| {
        upper := Min(upper, ForkOr(ancestry[index + 1], upto));
      }
      scopes := [(ancestry[index].id, upper)] + scopes;
    }
  }

  class BranchCatalog {
    var byId: map<Id, BranchInfo>
    var byName: map<Bytes, Id>

    function View(): Catalog
      reads this
    {
      Catalog(byId, byName)
    }

    constructor ()
      ensures View() == DefaultCatalog() && ValidBranches(byId)
    {
      byId := map[ZERO_ID := DefaultBranch()];
      byName := map[MAIN := ZERO_ID];
      new;
      DefaultIsValid();
    }

    static method Rebuild(entries: seq<BranchEntry>) returns (r: Result<BranchCatalog>)
      ensures match ReplayedEntries(entries)
        case Ok(c) => r.Ok? && fresh(r.value) && r.value.View() == c
        case Err(error) => r == Err(error)
    {
      hide WithBranch, WithArchived;
      var catalog := new BranchCatalog();
      var index := 0;
      assert entries[..0] == [];
      while index < |entries|
        invariant 0 <= index <= |entries| && fresh(catalog)
        invariant ReplayedEntries(entries[..index]) == Ok(catalog.View())
      {
        assert entries[..index + 1][..index] == entries[..index];
        var applied: Result<()> := Ok(());
        match entries[index] {
          case Created(info) => applied := catalog.Insert(info);
          case ArchivedAs(info) => applied := catalog.Archive(info);
          case Unrelated =>
        }
        if applied.Err? {
          ErrorsStop(entries, index + 1);
          return Err(applied.error);
        }
        index := index + 1;
      }
      assert entries[..index] == entries;
      return Ok(catalog);
    }

    constructor Copy(other: BranchCatalog)
      ensures View() == other.View()
    {
      byId, byName := other.byId, other.byName;
    }

    method ValidateDepth(info: BranchInfo) returns (r: Result<()>)
      ensures r == DepthVerdict(byId, info.parent, info.id, MAX_LINEAGE_DEPTH)
    {
      var parent := info.parent;
      var steps := MAX_LINEAGE_DEPTH;
      while steps > 0
        invariant 0 <= steps <= MAX_LINEAGE_DEPTH
        invariant DepthVerdict(byId, info.parent, info.id, MAX_LINEAGE_DEPTH) == DepthVerdict(byId, parent, info.id, steps)
      {
        if parent.None? {
          return Ok(());
        }
        if parent.value == info.id {
          return Err(InvalidBranchAncestry);
        }
        parent := if parent.value in byId then byId[parent.value].parent else None;
        steps := steps - 1;
      }
      return Err(InvalidBranchAncestry);
    }

    method Insert(info: BranchInfo) returns (r: Result<()>)
      modifies this
      ensures match WithBranch(old(View()), info)
        case Ok(next) => r == Ok(()) && View() == next
        case Err(error) => r == Err(error) && View() == old(View())
    {
      if info.id in byId {
        return Err(BranchExists);
      }
      if info.name in byName {
        return Err(BranchExists);
      }
      if info.parent.Some? && info.parent.value !in byId {
        return Err(BranchNotFound);
      }
      var _ :- ValidateDepth(info);
      byName := byName[info.name := info.id];
      byId := byId[info.id := info];
      return Ok(());
    }

    method Archive(archived: BranchInfo) returns (r: Result<()>)
      modifies this
      ensures match WithArchived(old(View()), archived)
        case Ok(next) => r == Ok(()) && View() == next
        case Err(error) => r == Err(error) && View() == old(View())
    {
      if archived.id !in byId {
        return Err(BranchNotFound);
      }
      if archived.id == ZERO_ID {
        return Err(InvalidArgument);
      }
      var expected := byId[archived.id].(status := Archived);
      if archived != expected {
        return Err(InvalidBranchAncestry);
      }
      byId := byId[archived.id := archived];
      return Ok(());
    }

    method AncestryOf(id: Id) returns (r: Result<seq<BranchInfo>>)
      ensures r == Ancestry(byId, id)
    {
      var result: seq<BranchInfo> := [];
      var current := Some(id);
      ghost var taken := 0;
      ghost var whole := Lineage(byId, current, 0);
      if whole.Ok? {
        assert [] + whole.value == whole.value;
      }
      while current.Some?
        invariant taken == |result| <= MAX_LINEAGE_DEPTH
        invariant Lineage(byId, Some(id), 0) == Onto(result, Lineage(byId, current, taken))
        decreases MAX_LINEAGE_DEPTH - taken, if current.Some? then 1 else 0
      {
        if current.value !in byId {
          return Err(BranchNotFound);
        }
        var branch := byId[current.value];
        if |result| == MAX_LINEAGE_DEPTH {
          return Err(InvalidBranchAncestry);
        }
        ghost var rest := Lineage(byId, branch.parent, taken + 1);
        assert rest.Ok? ==> result + ([branch] + rest.value) == (result + [branch]) + rest.value;
        result := result + [branch];
        current := branch.parent;
        taken := taken + 1;
      }
      assert result + [] == result;
      return Ok(Reversed(result));
    }

    method ReplayScopesOf(id: Id, upto: nat) returns (r: Result<seq<(Id, nat)>>)
      ensures r == ReplayScopes(byId, id, upto)
    {
      var ancestry :- AncestryOf(id);
      var scopes := CascadeCaps(ancestry, upto);
      return Ok(scopes);
    }

    method Divergence(left: Id, leftUntil: nat, right: Id, rightUntil: nat) returns (r: Result<(BranchInfo, nat)>)
      requires ValidBranches(byId)
      ensures left in byId && right in byId ==>
                (PathsAreTrees(byId, left, right);
                 r == Ok(DivergenceOf(Ancestry(byId, left).value, leftUntil, Ancestry(byId, right).value, rightUntil)))
      ensures left !in byId || right !in byId ==> r == Err(BranchNotFound)
    {
      hide ValidBranches, Lineage, Ancestry, IsPath, WellForked, DistinctIds, Parted, SharedLength, DivergenceOf;
      KnownHasAncestry(byId, left);
      KnownHasAncestry(byId, right);
      if left in byId && right in byId {
        PathsAreTrees(byId, left, right);
      }
      var leftPath :- AncestryOf(left);
      var rightPath :- AncestryOf(right);
      return Ok(DivergenceOf(leftPath, leftUntil, rightPath, rightUntil));
    }
  }

  function Onto(done: seq<BranchInfo>, rest: Result<seq<BranchInfo>>): Result<seq<BranchInfo>> {
    if rest.Ok? then Ok(done + rest.value) else rest
  }
}
