/** Moving a nested bucket from one bucket into another (waddrmgr/migrations.go). A bucket maps
    keys to values and nested buckets; writing a value over a bucket, or opening a value as a
    bucket, is an error. */
module BucketMigration {
  import opened Wrappers

  type Key = nat

  datatype Node = Value(data: nat) | Bucket(entries: Entries)

  type Entries = map<Key, Node>

  // ----- what a migration must do -----

  /** A nested bucket of dst, or what CreateBucketIfNotExists makes of a missing one. */
  function SubEntries(dst: Entries, key: Key): Entries {
    if key in dst && dst[key].Bucket? then dst[key].entries else map[]
  }

  /** No value of one tree meets a bucket of the other at the same place. */
  predicate Compatible(src: Node, dst: Option<Node>)
    decreases src
  {
    match src
    case Value(_) => dst.None? || dst.value.Value?
    case Bucket(entries) =>
      (dst.None? || dst.value.Bucket?)
      && forall k <- entries :: Compatible(entries[k], Find(if dst.None? then map[] else dst.value.entries, k))
  }

  function Find(entries: Entries, key: Key): Option<Node> {
    if key in entries then Some(entries[key]) else None
  }

  /** dst overlaid with src at every depth. */
  function Overlay(src: Node, dst: Option<Node>): Node
    decreases src
  {
    match src
    case Value(_) => src
    case Bucket(entries) =>
      var below := if dst.Some? && dst.value.Bucket? then dst.value.entries else map[];
      Bucket(map k | k in entries.Keys + below.Keys ::
        if k in entries then Overlay(entries[k], Find(below, k)) else below[k])
  }

  ghost function Maximum(s: set<nat>): (m: nat)
    ensures forall x <- s :: x <= m
  {
    if s == {} then 0
    else
      var x :| x in s;
      var m := Maximum(s - {x});
      assert forall y <- s :: y == x || y in s - {x};
      if x > m then x else m
  }

  /** How deep buckets are nested below a node. */
  ghost function Depth(n: Node): (d: nat)
    ensures n.Bucket? ==> forall k <- n.entries :: Depth(n.entries[k]) < d
  {
    match n
    case Value(_) => 0
    case Bucket(entries) =>
      var depths := set k | k in entries :: Depth(entries[k]);
      assert forall k <- entries :: Depth(entries[k]) in depths;
      1 + Maximum(depths)
  }

  // ----- the migration -----

  /** The part of the source bucket not moved yet. */
  function Rest(entries: Entries, todo: set<Key>): Entries {
    map k | k in entries && k in todo :: entries[k]
  }

  /** The destination bucket once the entries at `moved` have arrived. */
  function Arrived(entries: Entries, below: Entries, moved: set<Key>): Entries
    requires moved <= entries.Keys
  {
    map k | k in moved + below.Keys ::
      if k in moved then Overlay(entries[k], Find(below, k)) else below[k]
  }

  lemma EntryArrives(entries: Entries, below: Entries, moved: set<Key>, key: Key)
    requires moved <= entries.Keys && key in entries && key !in moved
    ensures Find(Arrived(entries, below, moved), key) == Find(below, key)
    ensures Arrived(entries, below, moved)[key := Overlay(entries[key], Find(below, key))]
            == Arrived(entries, below, moved + {key})
  {
  }

  lemma EntryLeaves(entries: Entries, todo: set<Key>, key: Key)
    requires key in todo && todo <= entries.Keys
    ensures key in Rest(entries, todo) && Rest(entries, todo)[key] == entries[key]
    ensures Rest(entries, todo) - {key} == Rest(entries, todo - {key})
  {
  }

  lemma AllArrived(src: Node, dst: Option<Node>)
    requires src.Bucket? && (dst.None? || dst.value.Bucket?)
    ensures var below := if dst.None? then map[] else dst.value.entries;
            Overlay(src, dst) == Bucket(Arrived(src.entries, below, src.entries.Keys))
  {
  }

  /** The step for one entry of the migrated bucket. */
  method MoveEntry(from: Entries, into: Entries, key: Key) returns (r: Option<(Entries, Entries)>)
    requires key in from
    ensures r.Some? <==> Compatible(from[key], Find(into, key))
    ensures r.Some? ==> r.value == (from - {key}, into[key := Overlay(from[key], Find(into, key))])
    decreases Depth(from[key]), 1
  {
    if from[key].Bucket? {
      r := MigrateRecursively(from, into, key);
    } else if key in into && into[key].Bucket? {
      r := None;
    } else {
      r := Some((from - {key}, into[key := from[key]]));
    }
  }

  /** MAIN RESULT. The move succeeds exactly when the trees are compatible. Then the source key
      is gone and nothing else of the source changed, the destination holds at that key its
      old contents overlaid at every depth by the moved ones, and its other entries are as
      before. */
  method MigrateRecursively(src: Entries, dst: Entries, key: Key) returns (r: Option<(Entries, Entries)>)
    requires key in src && src[key].Bucket?
    ensures r.Some? <==> Compatible(src[key], Find(dst, key))
    ensures r.Some? ==> r.value == (src - {key}, dst[key := Overlay(src[key], Find(dst, key))])
    decreases Depth(src[key]), 0
  {
    var entries := src[key].entries;
    if key in dst && dst[key].Value? {
      return None;
    }
    var below := SubEntries(dst, key);
    var bucketToMigrate := entries;
    var newBucket := below;
    var todo := entries.Keys;
    ghost var moved: set<Key> := {};
    assert Rest(entries, todo) == entries && Arrived(entries, below, moved) == below;
    while todo != {}
      invariant todo <= entries.Keys && moved == entries.Keys - todo
      invariant bucketToMigrate == Rest(entries, todo)
      invariant newBucket == Arrived(entries, below, moved)
      invariant forall k <- moved :: Compatible(entries[k], Find(below, k))
      decreases todo
    {
      var k :| k in todo;
      EntryLeaves(entries, todo, k);
      EntryArrives(entries, below, moved, k);
      assert Depth(entries[k]) < Depth(src[key]);
      var step := MoveEntry(bucketToMigrate, newBucket, k);
      if step.None? {
        return None;
      }
      bucketToMigrate, newBucket := step.value.0, step.value.1;
      todo := todo - {k};
      moved := moved + {k};
    }
    assert moved == entries.Keys;
    AllArrived(src[key], Find(dst, key));
    r := Some((src - {key}, dst[key := Bucket(newBucket)]));
  }

  // ----- what the overlay means -----

  /** The value stored at a path, if there is one. */
  function At(n: Option<Node>, path: seq<Key>): Option<nat>
    decreases |path|
  {
    if n.None? then None
    else
      match n.value
      case Value(data) => if path == [] then Some(data) else None
      case Bucket(entries) => if path == [] then None else At(Find(entries, path[0]), path[1..])
  }

  /** Path by path: the moved tree's values are all there, and the old ones stay wherever the
      moved tree has none. */
  lemma {:induction false} OverlayAt(src: Node, dst: Option<Node>, path: seq<Key>)
    requires Compatible(src, dst)
    ensures At(Some(Overlay(src, dst)), path)
            == if At(Some(src), path).Some? then At(Some(src), path) else At(dst, path)
    decreases |path|
  {
    if src.Bucket? && path != [] {
      var below := if dst.None? then map[] else dst.value.entries;
      var k := path[0];
      if k in src.entries {
        OverlayAt(src.entries[k], Find(below, k), path[1..]);
      }
    }
  }

  // ----- kinds, place by place -----

  datatype Kind = Missing | IsValue(data: nat) | IsBucket

  /** What lies at a path: nothing, a value, or a bucket, empty ones included. */
  function KindAt(n: Option<Node>, path: seq<Key>): Kind
    decreases |path|
  {
    match n
    case None => Missing
    case Some(Value(data)) => if path == [] then IsValue(data) else Missing
    case Some(Bucket(entries)) =>
      if path == [] then IsBucket else KindAt(Find(entries, path[0]), path[1..])
  }

  /** MAIN RESULT on the overlay. At every path lies what the moved tree has there, or what the
      old one has where the moved tree has nothing; buckets without entries are kept too. */
  lemma {:induction false} OverlayKinds(src: Node, dst: Option<Node>, path: seq<Key>)
    requires Compatible(src, dst)
    ensures KindAt(Some(Overlay(src, dst)), path)
            == if KindAt(Some(src), path).Missing? then KindAt(dst, path) else KindAt(Some(src), path)
    decreases |path|
  {
    if src.Bucket? && path != [] {
      var below := if dst.None? then map[] else dst.value.entries;
      var k := path[0];
      if k in src.entries {
        OverlayKinds(src.entries[k], Find(below, k), path[1..]);
      }
    }
  }

  /** A value of one tree where the other has a bucket. */
  ghost predicate Clash(src: Node, dst: Option<Node>, path: seq<Key>) {
    (KindAt(Some(src), path).IsValue? && KindAt(dst, path).IsBucket?)
    || (KindAt(Some(src), path).IsBucket? && KindAt(dst, path).IsValue?)
  }

  /** MAIN RESULT on when a migration fails: exactly if the trees clash at some path. */
  lemma {:induction false} CompatibleExactly(src: Node, dst: Option<Node>)
    ensures Compatible(src, dst) <==> forall path :: !Clash(src, dst, path)
    decreases src
  {
    if Clash(src, dst, []) {
      assert !Compatible(src, dst);
    } else if src.Bucket? {
      var below := if dst.None? then map[] else dst.value.entries;
      forall k | k in src.entries
        ensures Compatible(src.entries[k], Find(below, k)) <==> forall path :: !Clash(src.entries[k], Find(below, k), path)
      {
        CompatibleExactly(src.entries[k], Find(below, k));
      }
      if !Compatible(src, dst) {
        var k :| k in src.entries && !Compatible(src.entries[k], Find(below, k));
        var path :| Clash(src.entries[k], Find(below, k), path);
        ClashBelow(src, dst, k, path);
        assert Clash(src, dst, [k] + path);
      } else {
        forall path
          ensures !Clash(src, dst, path)
        {
          if path != [] && path[0] in src.entries {
            ClashBelow(src, dst, path[0], path[1..]);
            assert path == [path[0]] + path[1..];
            assert !Clash(src.entries[path[0]], Find(below, path[0]), path[1..]);
          } else if path != [] {
            assert KindAt(None, path[1..]) == Missing;
            assert KindAt(Some(src), path) == Missing;
          }
        }
      }
    }
  }

  lemma ClashBelow(src: Node, dst: Option<Node>, k: Key, path: seq<Key>)
    requires src.Bucket? && k in src.entries && (dst.None? || dst.value.Bucket?)
    ensures Clash(src, dst, [k] + path)
            <==> Clash(src.entries[k], Find(if dst.None? then map[] else dst.value.entries, k), path)
  {
    assert ([k] + path)[0] == k && ([k] + path)[1..] == path;
  }
}
