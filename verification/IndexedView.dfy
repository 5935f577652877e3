/** The queryable view: a primary map, named secondary indexes and a reverse map, updated
    in place event by event, whose queries equal scans of the primary map. */
module IndexedViews {
  import opened Base
  import opened Lexicographic

  type IndexKey = Bytes
  type Name = string

  datatype Change<V> = Put(key: Bytes, value: V) | Delete(key: Bytes)

  /** A stored event as the projector sees it. */
  datatype Event<E> = Event(offset: nat, body: E)

  // ── what a value is indexed under ──────────────────────────────────────

  datatype Indexer<!V> = Indexer(name: Name, keys: V -> seq<IndexKey>)

  function Named(name: Name, keys: seq<IndexKey>): (r: seq<(Name, IndexKey)>)
    ensures |r| == |keys| && forall i :: 0 <= i < |keys| ==> r[i] == (name, keys[i])
  {
    seq(|keys|, i requires 0 <= i < |keys| => (name, keys[i]))
  }

  /** Every entry the indexers derive from a value, in indexer order. */
  function EntriesOf<V>(indexers: seq<Indexer<V>>, value: V): seq<(Name, IndexKey)>
    decreases |indexers|
  {
    if indexers == [] then []
    else EntriesOf(indexers[..|indexers| - 1], value) + Named(indexers[|indexers| - 1].name, indexers[|indexers| - 1].keys(value))
  }

  lemma {:induction false} EntriesAreKeys<V>(indexers: seq<Indexer<V>>, value: V, name: Name, key: IndexKey)
    ensures (name, key) in EntriesOf(indexers, value) <==>
              exists i :: 0 <= i < |indexers| && indexers[i].name == name && key in indexers[i].keys(value)
    decreases |indexers|
  {
    if indexers != [] {
      var shorter, last := indexers[..|indexers| - 1], indexers[|indexers| - 1];
      EntriesAreKeys(shorter, value, name, key);
      assert forall i :: 0 <= i < |shorter| ==> shorter[i] == indexers[i];
      var named := Named(last.name, last.keys(value));
      if name == last.name && key in last.keys(value) {
        var j :| 0 <= j < |last.keys(value)| && last.keys(value)[j] == key;
        assert named[j] == (name, key);
      }
      if i :| 0 <= i < |indexers| && indexers[i].name == name && key in indexers[i].keys(value) {
        assert i < |shorter| ==> shorter[i] == indexers[i];
      }
    }
  }

  // ── buckets ────────────────────────────────────────────────────────────

  type Indexes = map<Name, map<IndexKey, set<Bytes>>>

  predicate InBucket(indexes: Indexes, entry: (Name, IndexKey), key: Bytes) {
    entry.0 in indexes && entry.1 in indexes[entry.0] && key in indexes[entry.0][entry.1]
  }

  predicate NoEmptyBucket(indexes: Indexes) {
    forall name, ik :: name in indexes && ik in indexes[name] ==> indexes[name][ik] != {}
  }

  /** One entry taken out for a key; a bucket that becomes empty goes with it. */
  function Unlisted(indexes: Indexes, entry: (Name, IndexKey), key: Bytes): Indexes {
    if entry.0 !in indexes || entry.1 !in indexes[entry.0] then indexes
    else
      var bucket := indexes[entry.0][entry.1] - {key};
      indexes[entry.0 := if bucket == {} then indexes[entry.0] - {entry.1} else indexes[entry.0][entry.1 := bucket]]
  }

  function Listed(indexes: Indexes, entry: (Name, IndexKey), key: Bytes): Indexes {
    var index := if entry.0 in indexes then indexes[entry.0] else map[];
    var bucket := if entry.1 in index then index[entry.1] else {};
    indexes[entry.0 := index[entry.1 := bucket + {key}]]
  }

  lemma UnlistedBuckets(indexes: Indexes, entry: (Name, IndexKey), key: Bytes)
    requires NoEmptyBucket(indexes)
    ensures NoEmptyBucket(Unlisted(indexes, entry, key))
    ensures forall e, k :: InBucket(Unlisted(indexes, entry, key), e, k) <==> InBucket(indexes, e, k) && !(e == entry && k == key)
  {
    if entry.0 in indexes && entry.1 in indexes[entry.0] {
      var bucket := indexes[entry.0][entry.1] - {key};
      assert forall k :: InBucket(indexes, entry, k) && k != key ==> k in bucket;
    }
  }

  lemma ListedBuckets(indexes: Indexes, entry: (Name, IndexKey), key: Bytes)
    requires NoEmptyBucket(indexes)
    ensures NoEmptyBucket(Listed(indexes, entry, key))
    ensures forall e, k :: InBucket(Listed(indexes, entry, key), e, k) <==> InBucket(indexes, e, k) || (e == entry && k == key)
  {
  }

  // ── key order ──────────────────────────────────────────────────────────

  ghost predicate Ascends(ks: seq<Bytes>) {
    forall i, j :: 0 <= i < j < |ks| ==> Less(ks[i], ks[j])
  }

  /** The keys of a set, each once, in ascending order. */
  ghost predicate Orders(ks: seq<Bytes>, s: set<Bytes>) {
    Ascends(ks) && forall k :: k in ks <==> k in s
  }

  lemma {:induction false} OrderIsUnique(a: seq<Bytes>, b: seq<Bytes>, s: set<Bytes>)
    requires Orders(a, s) && Orders(b, s)
    ensures a == b
    decreases |a|
  {
    assert a != [] ==> a[0] in a && a[0] in b;
    assert b != [] ==> b[0] in b && b[0] in a;
    if a != [] && b != [] {
      SameFirst(a, b);
      RestOrders(a, s);
      RestOrders(b, s);
      OrderIsUnique(a[1..], b[1..], s - {a[0]});
    }
  }

  lemma SameFirst(a: seq<Bytes>, b: seq<Bytes>)
    requires Ascends(a) && Ascends(b) && a != [] && b != [] && a[0] in b && b[0] in a
    ensures a[0] == b[0]
  {
    var i :| 0 <= i < |b| && b[i] == a[0];
    var j :| 0 <= j < |a| && a[j] == b[0];
    Irreflexive(a[0]);
    if Less(b[0], a[0]) && Less(a[0], b[0]) {
      Transitive(a[0], b[0], a[0]);
    }
  }

  lemma RestOrders(ks: seq<Bytes>, s: set<Bytes>)
    requires Orders(ks, s) && ks != []
    ensures Orders(ks[1..], s - {ks[0]})
  {
    Irreflexive(ks[0]);
    assert forall i :: 0 <= i < |ks[1..]| ==> ks[1..][i] == ks[i + 1];
    forall k ensures k in ks[1..] <==> k in s - {ks[0]} {
      if k in ks[1..] {
        var i :| 0 <= i < |ks[1..]| && ks[1..][i] == k;
        assert ks[i + 1] == k && Less(ks[0], k);
      }
      assert ks == [ks[0]] + ks[1..];
    }
  }

  function Inserted(ks: seq<Bytes>, k: Bytes): seq<Bytes> {
    if ks == [] then [k]
    else if Less(k, ks[0]) then [k] + ks
    else [ks[0]] + Inserted(ks[1..], k)
  }

  lemma {:induction false} InsertedOrders(ks: seq<Bytes>, s: set<Bytes>, k: Bytes)
    requires Orders(ks, s) && k !in s
    ensures Orders(Inserted(ks, k), s + {k})
    decreases |ks|
  {
    if ks == [] {
      assert forall x :: x in s ==> x in ks;
    } else if Less(k, ks[0]) {
      forall j | 0 <= j < |ks| ensures Less(k, ks[j]) {
        if j > 0 {
          Transitive(k, ks[0], ks[j]);
        }
      }
    } else {
      RestOrders(ks, s);
      InsertedOrders(ks[1..], s - {ks[0]}, k);
      assert ks[0] in s;
      Trichotomy(k, ks[0]);
      FirstIsLeast(ks, s, k);
    }
  }

  lemma FirstIsLeast(ks: seq<Bytes>, s: set<Bytes>, k: Bytes)
    requires Orders(ks, s) && ks != [] && Less(ks[0], k)
    requires Orders(Inserted(ks[1..], k), s - {ks[0]} + {k})
    ensures Orders([ks[0]] + Inserted(ks[1..], k), s + {k})
  {
    var rest := Inserted(ks[1..], k);
    assert ks[0] in s;
    forall j | 0 <= j < |rest| ensures Less(ks[0], rest[j]) {
      assert rest[j] in rest;
      if rest[j] != k {
        assert rest[j] in ks;
        var i :| 0 <= i < |ks| && ks[i] == rest[j];
      }
    }
  }

  /** Listing a set in key order, as an ordered set does when iterated. */
  method InOrder(s: set<Bytes>) returns (ks: seq<Bytes>)
    ensures Orders(ks, s)
  {
    ks := [];
    var todo := s;
    ghost var done: set<Bytes> := {};
    while todo != {}
      invariant done !! todo && done + todo == s && Orders(ks, done)
      decreases |todo|
    {
      var k :| k in todo;
      InsertedOrders(ks, done, k);
      ks := Inserted(ks, k);
      todo := todo - {k};
      done := done + {k};
    }
    assert done == s;
  }

  function Kept(ks: seq<Bytes>, s: set<Bytes>): seq<Bytes> {
    if ks == [] then [] else (if ks[0] in s then [ks[0]] else []) + Kept(ks[1..], s)
  }

  /** Filtering an ordered listing is the ordered listing of the filtered set. */
  lemma {:induction false} KeptOrders(ks: seq<Bytes>, s: set<Bytes>, t: set<Bytes>)
    requires Orders(ks, s)
    ensures Orders(Kept(ks, t), s * t)
    decreases |ks|
  {
    if ks == [] {
      assert forall k :: k in s * t ==> k in ks;
    } else {
      RestOrders(ks, s);
      KeptOrders(ks[1..], s - {ks[0]}, t);
      var rest := Kept(ks[1..], t);
      assert ks[0] in s;
      forall j | 0 <= j < |rest| ensures Less(ks[0], rest[j]) {
        assert rest[j] in rest;
        assert rest[j] in ks[1..];
        var i :| 0 <= i < |ks[1..]| && ks[1..][i] == rest[j];
        assert ks[i + 1] == rest[j];
      }
      forall k ensures k in Kept(ks, t) <==> k in s * t {
        assert k in Kept(ks, t) <==> (k == ks[0] && ks[0] in t) || k in rest;
      }
    }
  }

  // ── prefixes ───────────────────────────────────────────────────────────

  lemma {:induction false} PrefixIsNotBelow(prefix: Bytes, k: Bytes)
    requires prefix <= k
    ensures !Less(k, prefix)
  {
    if prefix != [] {
      assert prefix[0] == k[0] && prefix[1..] <= k[1..];
      PrefixIsNotBelow(prefix[1..], k[1..]);
    }
  }

  /** Between the prefix itself and a key that has it, every key has it: a contiguous block. */
  lemma {:induction false} PrefixBlock(prefix: Bytes, k: Bytes, next: Bytes)
    requires !Less(k, prefix) && Less(k, next) && prefix <= next
    ensures prefix <= k
  {
    if prefix != [] && k != [] {
      assert prefix[0] == next[0] && prefix[1..] <= next[1..];
      if k[0] == prefix[0] {
        PrefixBlock(prefix[1..], k[1..], next[1..]);
        assert prefix == [prefix[0]] + prefix[1..] && k == [k[0]] + k[1..];
      }
    }
  }

  // ── the view ───────────────────────────────────────────────────────────

  /** Indexes and reverse map are exactly what the indexers derive from the primary map. */
  ghost predicate Agree<V>(indexers: seq<Indexer<V>>, primary: map<Bytes, V>, indexes: Indexes, indexedAs: map<Bytes, seq<(Name, IndexKey)>>) {
    && indexedAs.Keys == primary.Keys
    && (forall k :: k in primary ==> indexedAs[k] == EntriesOf(indexers, primary[k]))
    && (forall e, k :: InBucket(indexes, e, k) <==> k in primary && e in EntriesOf(indexers, primary[k]))
    && NoEmptyBucket(indexes)
  }

  function Changed<V>(primary: map<Bytes, V>, change: Option<Change<V>>): map<Bytes, V> {
    match change
    case None => primary
    case Some(Put(key, value)) => primary[key := value]
    case Some(Delete(key)) => primary - {key}
  }

  /** The rows after a list of events, in order. */
  function Folded<E, V>(project: Event<E> -> Option<Change<V>>, primary: map<Bytes, V>, events: seq<Event<E>>): map<Bytes, V>
    decreases |events|
  {
    if events == [] then primary
    else Changed(Folded(project, primary, events[..|events| - 1]), project(events[|events| - 1]))
  }

  /** Replaying in two parts, at any split, is replaying in one. */
  lemma {:induction false} FoldSplits<E, V>(project: Event<E> -> Option<Change<V>>, primary: map<Bytes, V>, a: seq<Event<E>>, b: seq<Event<E>>)
    ensures Folded(project, primary, a + b) == Folded(project, Folded(project, primary, a), b)
    decreases |b|
  {
    if b == [] {
      assert a + b == a;
    } else {
      assert (a + b)[..|a + b| - 1] == a + b[..|b| - 1];
      FoldSplits(project, primary, a, b[..|b| - 1]);
    }
  }

  /** Agreement with a primary map leaves nothing open: the live buckets are determined. */
  lemma AgreementIsUnique<V>(indexers: seq<Indexer<V>>, primary: map<Bytes, V>, i: Indexes, r: map<Bytes, seq<(Name, IndexKey)>>,
                             i': Indexes, r': map<Bytes, seq<(Name, IndexKey)>>, name: Name, ik: IndexKey)
    requires Agree(indexers, primary, i, r) && Agree(indexers, primary, i', r')
    ensures r == r'
    ensures (name in i && ik in i[name]) <==> (name in i' && ik in i'[name])
    ensures name in i && ik in i[name] ==> i[name][ik] == i'[name][ik]
  {
    assert forall k :: InBucket(i, (name, ik), k) <==> InBucket(i', (name, ik), k);
    if name in i && ik in i[name] {
      var k :| k in i[name][ik];
      assert InBucket(i, (name, ik), k);
    }
    if name in i' && ik in i'[name] {
      var k :| k in i'[name][ik];
      assert InBucket(i', (name, ik), k);
    }
    if name in i && ik in i[name] {
      assert forall k :: k in i[name][ik] <==> InBucket(i, (name, ik), k);
      assert forall k :: k in i'[name][ik] <==> InBucket(i', (name, ik), k);
    }
  }

  function ValuesAt<V>(primary: map<Bytes, V>, ks: seq<Bytes>): seq<V>
    requires forall k :: k in ks ==> k in primary
  {
    seq(|ks|, i requires 0 <= i < |ks| => primary[ks[i]])
  }

  /** `values` are the values of the keys in `wanted`, in key order. */
  ghost predicate Lists<V>(values: seq<V>, primary: map<Bytes, V>, wanted: set<Bytes>) {
    exists hits :: Orders(hits, wanted) && (forall k :: k in hits ==> k in primary) && values == ValuesAt(primary, hits)
  }

  class IndexedView<V(!new), E(!new)> {
    const project: Event<E> -> Option<Change<V>>
    const indexers: seq<Indexer<V>>
    var primary: map<Bytes, V>
    var indexes: Indexes
    var indexedAs: map<Bytes, seq<(Name, IndexKey)>>
    var cursor: nat

    ghost predicate Valid()
      reads this
    {
      Agree(indexers, primary, indexes, indexedAs)
    }

    constructor (project: Event<E> -> Option<Change<V>>, indexers: seq<Indexer<V>>)
      ensures Valid() && primary == map[] && cursor == 0 && this.project == project && this.indexers == indexers
    {
      this.project, this.indexers := project, indexers;
      primary, indexes, indexedAs, cursor := map[], map[], map[], 0;
    }

    /** Take a key out of every bucket it is listed in. */
    method PruneIndexEntries(key: Bytes, entries: seq<(Name, IndexKey)>)
      requires NoEmptyBucket(indexes)
      modifies this`indexes
      ensures NoEmptyBucket(indexes)
      ensures forall e, k :: InBucket(indexes, e, k) <==> InBucket(old(indexes), e, k) && !(e in entries && k == key)
    {
      hide InBucket, NoEmptyBucket;
      var i := 0;
      while i < |entries|
        invariant 0 <= i <= |entries| && NoEmptyBucket(indexes)
        invariant forall e, k :: InBucket(indexes, e, k) <==> InBucket(old(indexes), e, k) && !(e in entries[..i] && k == key)
      {
        UnlistedBuckets(indexes, entries[i], key);
        Unlist(entries[i], key);
        assert entries[..i + 1] == entries[..i] + [entries[i]];
        i := i + 1;
      }
      assert entries[..i] == entries;
    }

    method Unlist(entry: (Name, IndexKey), key: Bytes)
      modifies this`indexes
      ensures indexes == Unlisted(old(indexes), entry, key)
    {
      if entry.0 in indexes {
        var index := indexes[entry.0];
        if entry.1 in index {
          var bucket := index[entry.1] - {key};
          ghost var before := index;
          index := index[entry.1 := bucket];
          if bucket == {} {
            index := index - {entry.1};
            assert index == before - {entry.1};
          }
          indexes := indexes[entry.0 := index];
        }
      }
    }

    method List(entry: (Name, IndexKey), key: Bytes)
      modifies this`indexes
      ensures indexes == Listed(old(indexes), entry, key)
    {
      var index := if entry.0 in indexes then indexes[entry.0] else map[];
      var bucket := if entry.1 in index then index[entry.1] else {};
      indexes := indexes[entry.0 := index[entry.1 := bucket + {key}]];
    }

    /** What the indexers derive from a value, in order. */
    method Derive(value: V) returns (recorded: seq<(Name, IndexKey)>)
      ensures recorded == EntriesOf(indexers, value)
    {
      recorded := [];
      var i := 0;
      assert indexers[..0] == [];
      while i < |indexers|
        invariant 0 <= i <= |indexers| && recorded == EntriesOf(indexers[..i], value)
      {
        assert indexers[..i + 1][..i] == indexers[..i];
        recorded := recorded + Named(indexers[i].name, indexers[i].keys(value));
        i := i + 1;
      }
      assert indexers[..i] == indexers;
    }

    /** List the key in every recorded bucket. */
    method ListAll(recorded: seq<(Name, IndexKey)>, key: Bytes)
      requires NoEmptyBucket(indexes)
      modifies this`indexes
      ensures NoEmptyBucket(indexes)
      ensures forall e, k :: InBucket(indexes, e, k) <==> InBucket(old(indexes), e, k) || (e in recorded && k == key)
    {
      hide InBucket, NoEmptyBucket;
      var i := 0;
      while i < |recorded|
        invariant 0 <= i <= |recorded| && NoEmptyBucket(indexes)
        invariant forall e, k :: InBucket(indexes, e, k) <==> InBucket(old(indexes), e, k) || (e in recorded[..i] && k == key)
      {
        ListedBuckets(indexes, recorded[i], key);
        List(recorded[i], key);
        assert recorded[..i + 1] == recorded[..i] + [recorded[i]];
        i := i + 1;
      }
      assert recorded[..i] == recorded;
    }

    method Put(key: Bytes, value: V)
      requires Valid()
      modifies this`primary, this`indexes, this`indexedAs
      ensures Valid() && primary == old(primary)[key := value]
    {
      hide InBucket, NoEmptyBucket, EntriesOf;
      if key in indexedAs {
        PruneIndexEntries(key, indexedAs[key]);
        indexedAs := indexedAs - {key};
      }
      var recorded := Derive(value);
      ListAll(recorded, key);
      indexedAs := indexedAs[key := recorded];
      primary := primary[key := value];
    }

    method Delete(key: Bytes)
      requires Valid()
      modifies this`primary, this`indexes, this`indexedAs
      ensures Valid() && primary == old(primary) - {key}
    {
      hide InBucket, NoEmptyBucket, EntriesOf;
      if key in indexedAs {
        PruneIndexEntries(key, indexedAs[key]);
        indexedAs := indexedAs - {key};
      }
      primary := primary - {key};
    }

    /** Fold one event in. */
    method Record(event: Event<E>)
      requires Valid()
      modifies this
      ensures Valid() && primary == Changed(old(primary), project(event)) && cursor == event.offset + 1
    {
      hide Agree;
      match project(event) {
        case None =>
        case Some(Put(key, value)) => Put(key, value);
        case Some(Delete(key)) => Delete(key);
      }
      cursor := event.offset + 1;
    }

    /** Replay a stored list from the cursor on, up to a position. */
    method CatchUp(log: seq<Event<E>>, upto: nat)
      requires Valid() && forall i :: 0 <= i < |log| ==> log[i].offset == i
      requires cursor <= upto <= |log|
      modifies this
      ensures Valid() && cursor == upto && primary == Folded(project, old(primary), log[old(cursor)..upto])
    {
      hide Agree, Changed;
      var i := cursor;
      assert log[old(cursor)..i] == [];
      while i < |log|
        invariant old(cursor) <= i <= upto && Valid() && cursor == i
        invariant primary == Folded(project, old(primary), log[old(cursor)..i])
      {
        if log[i].offset >= upto {
          break;
        }
        assert log[old(cursor)..i + 1][..i - old(cursor)] == log[old(cursor)..i];
        Record(log[i]);
        i := i + 1;
      }
    }

    /** LOOKUP BY INDEX equals a scan: the values of exactly the rows some indexer of that
        name maps to the key, in primary-key order. */
    method By(name: Name, key: IndexKey) returns (values: seq<V>)
      requires Valid()
      ensures Lists(values, primary, set k | k in primary && IndexedUnder(indexers, primary[k], name, key))
      ensures forall all :: Orders(all, primary.Keys) ==>
        var hits := Kept(all, set k | k in primary && IndexedUnder(indexers, primary[k], name, key));
        (forall k :: k in hits ==> k in primary) && values == ValuesAt(primary, hits)
    {
      ghost var wanted := set k | k in primary && IndexedUnder(indexers, primary[k], name, key);
      var bucket := if name in indexes && key in indexes[name] then indexes[name][key] else {};
      forall k ensures k in bucket <==> k in wanted {
        assert k in bucket <==> InBucket(indexes, (name, key), k);
        if k in primary {
          EntriesAreKeys(indexers, primary[k], name, key);
        }
      }
      var ks := InOrder(bucket);
      values := Collect(ks);
      assert bucket == wanted;
      forall all | Orders(all, primary.Keys) ensures ks == Kept(all, wanted) {
        KeptOrders(all, primary.Keys, wanted);
        assert primary.Keys * wanted == wanted;
        OrderIsUnique(ks, Kept(all, wanted), wanted);
      }
    }

    method Collect(ks: seq<Bytes>) returns (values: seq<V>)
      requires forall k :: k in ks ==> k in primary
      ensures values == ValuesAt(primary, ks)
    {
      values := [];
      while |values| < |ks|
        invariant |values| <= |ks| && values == ValuesAt(primary, ks)[..|values|]
      {
        values := values + [primary[ks[|values|]]];
      }
    }

    /** PREFIX SCAN: skip to the prefix, stop at the first key without it; nothing that has
        the prefix is missed. */
    method Prefix(prefix: Bytes) returns (values: seq<V>)
      ensures Lists(values, primary, set k | k in primary && prefix <= k)
    {
      var all := InOrder(primary.Keys);
      var start := 0;
      while start < |all| && Less(all[start], prefix)
        invariant 0 <= start <= |all| && forall i :: 0 <= i < start ==> Less(all[i], prefix)
      {
        start := start + 1;
      }
      var end := start;
      while end < |all| && prefix <= all[end]
        invariant start <= end <= |all| && forall i :: start <= i < end ==> prefix <= all[i]
      {
        end := end + 1;
      }
      BlockIsAll(all, primary.Keys, prefix, start, end);
      assert forall k :: k in all[start..end] ==> k in all;
      values := Collect(all[start..end]);
    }
  }

  ghost predicate IndexedUnder<V>(indexers: seq<Indexer<V>>, value: V, name: Name, key: IndexKey) {
    exists i :: 0 <= i < |indexers| && indexers[i].name == name && key in indexers[i].keys(value)
  }

  lemma BlockIsAll(all: seq<Bytes>, s: set<Bytes>, prefix: Bytes, start: nat, end: nat)
    requires Orders(all, s) && start <= end <= |all|
    requires forall i :: 0 <= i < start ==> Less(all[i], prefix)
    requires start < |all| ==> !Less(all[start], prefix)
    requires forall i :: start <= i < end ==> prefix <= all[i]
    requires end < |all| ==> !(prefix <= all[end])
    ensures Orders(all[start..end], set k | k in s && prefix <= k)
  {
    forall i | 0 <= i < |all| ensures prefix <= all[i] <==> start <= i < end {
      if i < start {
        NotBelow(prefix, all[i]);
      } else if end <= i {
        AfterBlock(all, prefix, start, end, i);
      }
    }
    forall k ensures k in all[start..end] <==> k in s && prefix <= k {
      if k in s && prefix <= k {
        var i :| 0 <= i < |all| && all[i] == k;
        assert all[start..end][i - start] == k;
      }
      if k in all[start..end] {
        var i :| 0 <= i < end - start && all[start..end][i] == k;
        assert all[start + i] == k;
      }
    }
  }

  lemma NotBelow(prefix: Bytes, k: Bytes)
    ensures Less(k, prefix) ==> !(prefix <= k)
  {
    if prefix <= k {
      PrefixIsNotBelow(prefix, k);
    }
  }

  lemma AfterBlock(all: seq<Bytes>, prefix: Bytes, start: nat, end: nat, i: nat)
    requires Ascends(all) && start <= end <= i < |all|
    requires !Less(all[start], prefix) && !(prefix <= all[end])
    ensures !(prefix <= all[i])
  {
    if i > end && prefix <= all[i] {
      if end > start && Less(all[end], prefix) {
        Transitive(all[start], all[end], prefix);
      }
      PrefixBlock(prefix, all[end], all[i]);
    }
  }
}
