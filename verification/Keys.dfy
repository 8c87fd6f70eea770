/** Nested data flattened to slash-separated keys, and the renaming of those keys in queries. */
module Keys {
  import opened Bytes

  type Key = string

  // ---------------------------------------------------------------- renaming

  /** '/' to "__", everywhere. */
  function Renamed(k: Key): string {
    if k == "" then "" else (if k[0] == '/' then "__" else [k[0]]) + Renamed(k[1..])
  }

  /** "__" to '/', from the left, without overlaps. */
  function RenamedBack(s: string): Key
    decreases |s|
  {
    if s == "" then ""
    else if |s| >= 2 && s[0] == '_' && s[1] == '_' then "/" + RenamedBack(s[2..])
    else [s[0]] + RenamedBack(s[1..])
  }

  /** No underscore is followed by an underscore or a slash. */
  predicate Plain(k: Key) {
    forall i :: 0 <= i < |k| - 1 && k[i] == '_' ==> k[i + 1] != '_' && k[i + 1] != '/'
  }

  lemma {:induction false} RenamedNoSlash(k: Key)
    ensures '/' !in Renamed(k)
  {
    if k != "" {
      RenamedNoSlash(k[1..]);
    }
  }

  lemma PlainCons(c: char, k: Key)
    ensures Plain([c] + k) <==> Plain(k) && (c == '_' && k != "" ==> k[0] != '_' && k[0] != '/')
  {
    var s := [c] + k;
    assert s[1..] == k;
    if Plain(s) {
      forall i | 0 <= i < |k| - 1 && k[i] == '_' ensures k[i + 1] != '_' && k[i + 1] != '/' {
        assert s[i + 1] == k[i] && s[i + 1 + 1] == k[i + 1];
      }
      if c == '_' && k != "" {
        assert s[0] == '_' && s[0 + 1] == k[0];
      }
    }
  }

  lemma {:induction false} BackIsPlain(s: string)
    requires '/' !in s
    ensures Plain(RenamedBack(s))
    ensures s != "" && s[0] != '_' ==> RenamedBack(s) != "" && RenamedBack(s)[0] == s[0]
    decreases |s|
  {
    if s == "" {
    } else if |s| >= 2 && s[0] == '_' && s[1] == '_' {
      BackIsPlain(s[2..]);
      PlainCons('/', RenamedBack(s[2..]));
    } else {
      BackIsPlain(s[1..]);
      PlainCons(s[0], RenamedBack(s[1..]));
    }
  }

  lemma {:induction false} PlainComesBack(k: Key)
    requires Plain(k)
    ensures RenamedBack(Renamed(k)) == k
  {
    if k != "" {
      assert k == [k[0]] + k[1..];
      PlainCons(k[0], k[1..]);
      PlainComesBack(k[1..]);
      var tail := Renamed(k[1..]);
      if k[0] == '/' {
        assert ("__" + tail)[2..] == tail;
      } else {
        assert ([k[0]] + tail)[1..] == tail;
      }
    }
  }

  /** Renaming a key for a query is undone on its results exactly for the plain keys. */
  lemma {:induction false} RenamingUndone(k: Key)
    ensures RenamedBack(Renamed(k)) == k <==> Plain(k)
  {
    if Plain(k) {
      PlainComesBack(k);
    } else {
      RenamedNoSlash(k);
      BackIsPlain(Renamed(k));
    }
  }

  // ---------------------------------------------------------------- flattening

  /** The fields of a map in the order they are visited. */
  datatype Value = Leaf(value: int) | Nested(fields: seq<Field>)
  datatype Field = Field(key: Key, value: Value)

  function FullKey(prefix: Key, k: Key): Key {
    if prefix == "" then k else prefix + "/" + k
  }

  /** Later fields overwrite earlier ones under the same key. */
  function Flatten(fields: seq<Field>, prefix: Key): map<Key, int>
    decreases fields
  {
    if fields == [] then map[] else
    var f := fields[|fields| - 1];
    Flatten(fields[..|fields| - 1], prefix) + Piece(f, prefix)
  }

  function Piece(f: Field, prefix: Key): map<Key, int>
    decreases f
  {
    match f.value
    case Leaf(v) => map[FullKey(prefix, f.key) := v]
    case Nested(fields) => Flatten(fields, FullKey(prefix, f.key))
  }

  method FlattenKeys(fields: seq<Field>, prefix: Key) returns (result: map<Key, int>)
    ensures result == Flatten(fields, prefix)
    decreases fields
  {
    result := map[];
    for i := 0 to |fields|
      invariant result == Flatten(fields[..i], prefix)
    {
      var key := fields[i].key;
      if prefix != "" {
        key := prefix + "/" + key;
      }
      assert fields[..i + 1][..i] == fields[..i];
      match fields[i].value {
        case Leaf(v) =>
          result := result + map[key := v];
        case Nested(inner) =>
          var flat := FlattenKeys(inner, key);
          result := result + flat;
      }
    }
    assert fields[..|fields|] == fields;
  }

  /** Keys a device may use: nonempty, without slashes, each at most once in its map. */
  predicate GoodKey(k: Key) {
    k != "" && '/' !in k
  }

  predicate Good(fields: seq<Field>)
    decreases fields
  {
    fields == [] ||
    (var f := fields[|fields| - 1];
     && Good(fields[..|fields| - 1]) && GoodKey(f.key) && (f.value.Nested? ==> Good(f.value.fields))
     && Find(fields[..|fields| - 1], f.key).None?)
  }

  function Find(fields: seq<Field>, k: Key): Option<Value> {
    if fields == [] then None
    else if fields[|fields| - 1].key == k then Some(fields[|fields| - 1].value)
    else Find(fields[..|fields| - 1], k)
  }

  predicate GoodPath(path: seq<Key>) {
    path != [] && forall i :: 0 <= i < |path| ==> GoodKey(path[i])
  }

  /** The leaf at the end of a path through the nested maps. */
  function Lookup(fields: seq<Field>, path: seq<Key>): Option<int>
    requires path != []
    decreases |path|
  {
    match Find(fields, path[0])
    case None => None
    case Some(Leaf(v)) => if |path| == 1 then Some(v) else None
    case Some(Nested(inner)) => if |path| == 1 then None else Lookup(inner, path[1..])
  }

  function Join(path: seq<Key>): Key
    requires path != []
  {
    if |path| == 1 then path[0] else path[0] + "/" + Join(path[1..])
  }

  function Split(s: string, current: Key): seq<Key>
    decreases |s|
  {
    if s == "" then [current]
    else if s[0] == '/' then [current] + Split(s[1..], "")
    else Split(s[1..], current + [s[0]])
  }

  lemma {:induction false} SplitKey(k: Key, rest: string, current: Key)
    requires '/' !in k
    ensures Split(k + "/" + rest, current) == [current + k] + Split(rest, "")
    ensures Split(k, current) == [current + k]
    decreases |k|
  {
    var s := k + "/" + rest;
    if k == "" {
      assert s[1..] == rest && current + k == current;
    } else {
      assert s[1..] == k[1..] + "/" + rest;
      SplitKey(k[1..], rest, current + [k[0]]);
      assert current + [k[0]] + k[1..] == current + k;
    }
  }

  ghost predicate SlashFree(path: seq<Key>) {
    forall k :: k in path ==> '/' !in k
  }

  lemma {:induction false} SplitParts(s: string, current: Key)
    requires '/' !in current
    ensures SlashFree(Split(s, current))
    decreases |s|
  {
    if s != "" {
      SplitParts(s[1..], if s[0] == '/' then "" else current + [s[0]]);
    }
  }

  lemma {:induction false} SplitJoinSlashFree(path: seq<Key>)
    requires path != [] && SlashFree(path)
    ensures Split(Join(path), "") == path
  {
    assert path[0] in path && "" + path[0] == path[0];
    if |path| == 1 {
      SplitKey(path[0], "", "");
    } else {
      assert forall k :: k in path[1..] ==> k in path;
      SplitJoinSlashFree(path[1..]);
      SplitKey(path[0], Join(path[1..]), "");
      assert [path[0]] + path[1..] == path;
    }
  }

  /** Splitting at the slashes gives the path back exactly if no key on it has a slash. */
  lemma SplitUndoesJoin(path: seq<Key>)
    requires path != []
    ensures Split(Join(path), "") == path <==> SlashFree(path)
  {
    SplitParts(Join(path), "");
    if SlashFree(path) {
      SplitJoinSlashFree(path);
    }
  }

  lemma SplitJoin(path: seq<Key>)
    requires GoodPath(path)
    ensures Split(Join(path), "") == path
  {
    SplitUndoesJoin(path);
  }

  lemma FullKeyJoin(prefix: Key, k: Key, rest: seq<Key>)
    requires k != "" && rest != []
    ensures FullKey(FullKey(prefix, k), Join(rest)) == FullKey(prefix, Join([k] + rest))
  {
    assert ([k] + rest)[1..] == rest;
    assert prefix + "/" + k + "/" + Join(rest) == prefix + "/" + (k + "/" + Join(rest));
  }

  lemma FullKeyInjective(prefix: Key, a: seq<Key>, b: seq<Key>)
    requires GoodPath(a) && GoodPath(b) && FullKey(prefix, Join(a)) == FullKey(prefix, Join(b))
    ensures a == b
  {
    if prefix != "" {
      assert FullKey(prefix, Join(a))[|prefix| + 1..] == Join(a);
      assert FullKey(prefix, Join(b))[|prefix| + 1..] == Join(b);
    }
    SplitJoin(a);
    SplitJoin(b);
  }

  /** Every key of the flat map is the path of a leaf. */
  ghost predicate Comes(fields: seq<Field>, prefix: Key, x: Key) {
    exists path :: GoodPath(path) && x == FullKey(prefix, Join(path)) && Lookup(fields, path).Some?
  }

  lemma {:induction false} KeysComeFromLeaves(fields: seq<Field>, prefix: Key)
    requires Good(fields)
    ensures forall x :: x in Flatten(fields, prefix) ==> Comes(fields, prefix, x)
    decreases fields
  {
    if fields != [] {
      var init, f := fields[..|fields| - 1], fields[|fields| - 1];
      KeysComeFromLeaves(init, prefix);
      if f.value.Nested? {
        KeysComeFromLeaves(f.value.fields, FullKey(prefix, f.key));
      }
      forall x | x in Flatten(fields, prefix)
        ensures Comes(fields, prefix, x)
      {
        if x in Piece(f, prefix) {
          PieceKey(fields, prefix, x);
        } else {
          assert x in Flatten(init, prefix) && Comes(init, prefix, x);
          var path :| GoodPath(path) && x == FullKey(prefix, Join(path)) && Lookup(init, path).Some?;
          assert path[0] != f.key;
          assert Lookup(fields, path) == Lookup(init, path);
        }
      }
    }
  }

  lemma PieceKey(fields: seq<Field>, prefix: Key, x: Key)
    requires Good(fields) && fields != [] && x in Piece(fields[|fields| - 1], prefix)
    requires var f := fields[|fields| - 1];
             f.value.Nested? ==>
               var full := FullKey(prefix, f.key);
               forall y :: y in Flatten(f.value.fields, full) ==> Comes(f.value.fields, full, y)
    ensures Comes(fields, prefix, x)
    ensures exists path :: GoodPath(path) && path[0] == fields[|fields| - 1].key && x == FullKey(prefix, Join(path))
  {
    var f := fields[|fields| - 1];
    match f.value {
      case Leaf(_) =>
        assert GoodPath([f.key]) && Lookup(fields, [f.key]).Some?;
      case Nested(inner) =>
        var rest :| GoodPath(rest) && x == FullKey(FullKey(prefix, f.key), Join(rest)) && Lookup(inner, rest).Some?;
        FullKeyJoin(prefix, f.key, rest);
        var path := [f.key] + rest;
        assert path[1..] == rest;
        assert GoodPath(path) && Lookup(fields, path) == Lookup(inner, rest);
    }
  }

  /**
   * Flattening loses no leaf and merges no two: for every path, the flat map holds `v` under the
   * joined path if and only if the nested data has the leaf `v` at its end.
   */
  lemma {:induction false} FlattenFaithful(fields: seq<Field>, prefix: Key, path: seq<Key>)
    requires Good(fields) && GoodPath(path)
    ensures var x := FullKey(prefix, Join(path));
            && (x in Flatten(fields, prefix) <==> Lookup(fields, path).Some?)
            && (x in Flatten(fields, prefix) ==> Some(Flatten(fields, prefix)[x]) == Lookup(fields, path))
    decreases fields
  {
    if fields != [] {
      var init, f := fields[..|fields| - 1], fields[|fields| - 1];
      var x := FullKey(prefix, Join(path));
      FlattenFaithful(init, prefix, path);
      if f.value.Nested? {
        KeysComeFromLeaves(f.value.fields, FullKey(prefix, f.key));
      }
      if x in Piece(f, prefix) {
        PieceKey(fields, prefix, x);
        var p :| GoodPath(p) && p[0] == f.key && x == FullKey(prefix, Join(p));
        FullKeyInjective(prefix, p, path);
      }
      if path[0] == f.key {
        PieceFaithful(f, prefix, path);
        assert Find(init, f.key).None? && Lookup(init, path).None?;
      } else {
        assert Lookup(fields, path) == Lookup(init, path);
      }
    }
  }

  lemma PieceFaithful(f: Field, prefix: Key, path: seq<Key>)
    requires GoodKey(f.key) && (f.value.Nested? ==> Good(f.value.fields)) && GoodPath(path) && path[0] == f.key
    ensures var x := FullKey(prefix, Join(path));
            && (x in Piece(f, prefix) <==> Lookup([f], path).Some?)
            && (x in Piece(f, prefix) ==> Some(Piece(f, prefix)[x]) == Lookup([f], path))
    decreases f, 0
  {
    match f.value {
      case Leaf(_) =>
        if FullKey(prefix, Join(path)) == FullKey(prefix, f.key) {
          FullKeyInjective(prefix, path, [f.key]);
        }
      case Nested(inner) =>
        if |path| == 1 {
          KeysAreLonger(inner, FullKey(prefix, f.key));
        } else {
          FullKeyJoin(prefix, f.key, path[1..]);
          assert [f.key] + path[1..] == path;
          FlattenFaithful(inner, FullKey(prefix, f.key), path[1..]);
        }
    }
  }

  lemma KeysAreLonger(fields: seq<Field>, prefix: Key)
    requires Good(fields) && prefix != ""
    ensures forall x :: x in Flatten(fields, prefix) ==> |prefix| < |x|
  {
    KeysComeFromLeaves(fields, prefix);
    forall x | x in Flatten(fields, prefix)
      ensures |prefix| < |x|
    {
      assert Comes(fields, prefix, x);
      var path :| GoodPath(path) && x == FullKey(prefix, Join(path)) && Lookup(fields, path).Some?;
    }
  }

  /** Every flat key splits into the path of its leaf. */
  lemma SplitUndoes(fields: seq<Field>)
    requires Good(fields)
    ensures forall x :: x in Flatten(fields, "") ==>
      && GoodPath(Split(x, "")) && Lookup(fields, Split(x, "")) == Some(Flatten(fields, "")[x])
  {
    KeysComeFromLeaves(fields, "");
    forall x | x in Flatten(fields, "")
      ensures GoodPath(Split(x, "")) && Lookup(fields, Split(x, "")) == Some(Flatten(fields, "")[x])
    {
      assert Comes(fields, "", x);
      var path :| GoodPath(path) && x == FullKey("", Join(path)) && Lookup(fields, path).Some?;
      SplitJoin(path);
      FlattenFaithful(fields, "", path);
    }
  }

  /** Data with the same flat map have the same leaves under the same paths. */
  lemma FlattenInjective(a: seq<Field>, b: seq<Field>, path: seq<Key>)
    requires Good(a) && Good(b) && GoodPath(path) && Flatten(a, "") == Flatten(b, "")
    ensures Lookup(a, path) == Lookup(b, path)
  {
    FlattenFaithful(a, "", path);
    FlattenFaithful(b, "", path);
  }

  function Leaves(fields: seq<Field>): nat
    decreases fields
  {
    if fields == [] then 0 else
    var f := fields[|fields| - 1];
    Leaves(fields[..|fields| - 1]) + match f.value case Leaf(_) => 1 case Nested(inner) => Leaves(inner)
  }

  lemma {:induction false} GoodCounts(fields: seq<Field>, prefix: Key)
    requires Good(fields)
    ensures |Flatten(fields, prefix)| == Leaves(fields)
    decreases fields
  {
    if fields != [] {
      var init, f := fields[..|fields| - 1], fields[|fields| - 1];
      GoodCounts(init, prefix);
      if f.value.Nested? {
        GoodCounts(f.value.fields, FullKey(prefix, f.key));
      }
      PiecesApart(fields, prefix);
      var a, b := Flatten(init, prefix), Piece(f, prefix);
      assert (a + b).Keys == a.Keys + b.Keys && a.Keys !! b.Keys;
      assert |a + b| == |(a + b).Keys| && |a| == |a.Keys| && |b| == |b.Keys|;
    }
  }

  lemma PiecesApart(fields: seq<Field>, prefix: Key)
    requires Good(fields) && fields != []
    ensures Flatten(fields[..|fields| - 1], prefix).Keys !! Piece(fields[|fields| - 1], prefix).Keys
  {
    var init, f := fields[..|fields| - 1], fields[|fields| - 1];
    KeysComeFromLeaves(init, prefix);
    if f.value.Nested? {
      KeysComeFromLeaves(f.value.fields, FullKey(prefix, f.key));
    }
    forall x | x in Piece(f, prefix)
      ensures x !in Flatten(init, prefix)
    {
      PieceKey(fields, prefix, x);
      var p :| GoodPath(p) && p[0] == f.key && x == FullKey(prefix, Join(p));
      FlattenFaithful(init, prefix, p);
    }
  }

  // ---------------------------------------------------------------- any keys at all

  /** The leaves with their full keys, in the order they are visited. */
  function LeafList(fields: seq<Field>, prefix: Key): seq<(Key, int)>
    decreases fields
  {
    if fields == [] then [] else
    var f := fields[|fields| - 1];
    LeafList(fields[..|fields| - 1], prefix) +
    match f.value
    case Leaf(v) => [(FullKey(prefix, f.key), v)]
    case Nested(inner) => LeafList(inner, FullKey(prefix, f.key))
  }

  function MapOf(list: seq<(Key, int)>): map<Key, int> {
    if list == [] then map[] else MapOf(list[..|list| - 1])[list[|list| - 1].0 := list[|list| - 1].1]
  }

  lemma {:induction false} MapOfConcat(a: seq<(Key, int)>, b: seq<(Key, int)>)
    ensures MapOf(a + b) == MapOf(a) + MapOf(b)
    decreases |b|
  {
    if b == [] {
      assert a + b == a;
    } else {
      assert (a + b)[..|a + b| - 1] == a + b[..|b| - 1];
      MapOfConcat(a, b[..|b| - 1]);
    }
  }

  /** Flattening, for any keys: the leaves are put into the map one by one, and the last one under a key wins. */
  lemma {:induction false} FlattenLastWins(fields: seq<Field>, prefix: Key)
    ensures Flatten(fields, prefix) == MapOf(LeafList(fields, prefix))
    ensures |LeafList(fields, prefix)| == Leaves(fields)
    decreases fields
  {
    if fields != [] {
      var init, f := fields[..|fields| - 1], fields[|fields| - 1];
      FlattenLastWins(init, prefix);
      match f.value {
        case Leaf(v) =>
          var one := [(FullKey(prefix, f.key), v)];
          assert one[..0] == [] && MapOf(one) == map[FullKey(prefix, f.key) := v];
          MapOfConcat(LeafList(init, prefix), one);
        case Nested(inner) =>
          FlattenLastWins(inner, FullKey(prefix, f.key));
          MapOfConcat(LeafList(init, prefix), LeafList(inner, FullKey(prefix, f.key)));
      }
    }
  }

  /** Leaves with the same full key have the same value. */
  ghost predicate Agreeing(list: seq<(Key, int)>) {
    forall i, j :: 0 <= i < j < |list| && list[i].0 == list[j].0 ==> list[i].1 == list[j].1
  }

  ghost predicate DistinctKeys(list: seq<(Key, int)>) {
    forall i, j :: 0 <= i < j < |list| ==> list[i].0 != list[j].0
  }

  /** Every leaf is found under its full key. */
  ghost predicate Kept(list: seq<(Key, int)>, flat: map<Key, int>) {
    forall i :: 0 <= i < |list| ==> list[i].0 in flat && flat[list[i].0] == list[i].1
  }

  ghost predicate Named(list: seq<(Key, int)>, k: Key) {
    exists i :: 0 <= i < |list| && list[i].0 == k
  }

  lemma NamedLast(list: seq<(Key, int)>, k: Key)
    requires list != []
    ensures Named(list, k) <==> list[|list| - 1].0 == k || Named(list[..|list| - 1], k)
  {
    var init := list[..|list| - 1];
    if Named(init, k) {
      var i :| 0 <= i < |init| && init[i].0 == k;
      assert list[i].0 == k;
    }
    if Named(list, k) {
      var i :| 0 <= i < |list| && list[i].0 == k;
      assert i < |init| ==> init[i].0 == k;
    }
  }

  lemma {:induction false} MapOfKeys(list: seq<(Key, int)>, k: Key)
    ensures k in MapOf(list) <==> Named(list, k)
    decreases |list|
  {
    hide Named;
    if list == [] {
      NothingNamed(k);
    } else {
      MapOfKeys(list[..|list| - 1], k);
      NamedLast(list, k);
    }
  }

  lemma NothingNamed(k: Key)
    ensures !Named([], k)
  {}

  lemma {:induction false} MapOfAgrees(list: seq<(Key, int)>)
    requires Agreeing(list)
    ensures Kept(list, MapOf(list))
    decreases |list|
  {
    if list != [] {
      var init := list[..|list| - 1];
      assert forall i :: 0 <= i < |init| ==> init[i] == list[i];
      MapOfAgrees(init);
      forall i | 0 <= i < |list|
        ensures list[i].0 in MapOf(list) && MapOf(list)[list[i].0] == list[i].1
      {
        assert i < |init| ==> init[i].0 in MapOf(init);
      }
    }
  }

  lemma DistinctLast(list: seq<(Key, int)>)
    requires list != []
    ensures var init := list[..|list| - 1];
            DistinctKeys(list) <==> DistinctKeys(init) && !Named(init, list[|list| - 1].0)
  {
    var init := list[..|list| - 1];
    assert forall i :: 0 <= i < |init| ==> init[i] == list[i];
  }

  lemma {:induction false} MapOfSize(list: seq<(Key, int)>)
    ensures |MapOf(list)| <= |list| && (|MapOf(list)| == |list| <==> DistinctKeys(list))
    decreases |list|
  {
    hide DistinctKeys, Named;
    if list == [] {
      NothingDistinct();
    } else {
      var init, last := list[..|list| - 1], list[|list| - 1];
      MapOfSize(init);
      MapOfKeys(init, last.0);
      MapGrows(MapOf(init), last.0, last.1);
      DistinctLast(list);
    }
  }

  lemma NothingDistinct()
    ensures DistinctKeys([])
  {}

  lemma MapGrows(m: map<Key, int>, k: Key, v: int)
    ensures |m[k := v]| == |m| + if k in m then 0 else 1
  {
    assert m[k := v].Keys == m.Keys + {k};
    assert |m[k := v]| == |m[k := v].Keys| && |m| == |m.Keys|;
  }

  /** For any keys: no leaf is lost if and only if no two leaves with different values have the same full key. */
  lemma FlattenKeepsLeaves(fields: seq<Field>, prefix: Key)
    ensures Kept(LeafList(fields, prefix), Flatten(fields, prefix)) <==> Agreeing(LeafList(fields, prefix))
  {
    FlattenLastWins(fields, prefix);
    if Agreeing(LeafList(fields, prefix)) {
      MapOfAgrees(LeafList(fields, prefix));
    }
  }

  /** For any keys: there are as many flat keys as leaves if and only if no two leaves have the same full key. */
  lemma FlattenCounts(fields: seq<Field>, prefix: Key)
    ensures |Flatten(fields, prefix)| <= Leaves(fields)
    ensures |Flatten(fields, prefix)| == Leaves(fields) <==> DistinctKeys(LeafList(fields, prefix))
    ensures Good(fields) ==> DistinctKeys(LeafList(fields, prefix))
  {
    FlattenLastWins(fields, prefix);
    MapOfSize(LeafList(fields, prefix));
    if Good(fields) {
      GoodCounts(fields, prefix);
    }
  }

  /** The full key of a path. */
  function FullPath(prefix: Key, path: seq<Key>): Key
    decreases |path|
  {
    if path == [] then prefix else FullPath(FullKey(prefix, path[0]), path[1..])
  }

  function Under(k: Key, paths: seq<seq<Key>>): (r: seq<seq<Key>>)
    ensures |r| == |paths|
  {
    seq(|paths|, i requires 0 <= i < |paths| => [k] + paths[i])
  }

  /** The paths of the leaves, in the order they are visited. */
  function PathList(fields: seq<Field>): seq<seq<Key>>
    decreases fields
  {
    if fields == [] then [] else
    var f := fields[|fields| - 1];
    PathList(fields[..|fields| - 1]) +
    match f.value
    case Leaf(_) => [[f.key]]
    case Nested(inner) => Under(f.key, PathList(inner))
  }

  /** Leaves listed with their paths. */
  ghost predicate Paired(paths: seq<seq<Key>>, leaves: seq<(Key, int)>, prefix: Key) {
    && |paths| == |leaves|
    && forall i :: 0 <= i < |paths| ==> paths[i] != [] && leaves[i].0 == FullPath(prefix, paths[i])
  }

  lemma PairedConcat(p: seq<seq<Key>>, a: seq<(Key, int)>, q: seq<seq<Key>>, b: seq<(Key, int)>, prefix: Key)
    requires Paired(p, a, prefix) && Paired(q, b, prefix)
    ensures Paired(p + q, a + b, prefix)
  {
    hide FullPath;
  }

  lemma PairedUnder(k: Key, paths: seq<seq<Key>>, leaves: seq<(Key, int)>, prefix: Key)
    requires Paired(paths, leaves, FullKey(prefix, k))
    ensures Paired(Under(k, paths), leaves, prefix)
  {
    forall i | 0 <= i < |paths|
      ensures Under(k, paths)[i] != [] && leaves[i].0 == FullPath(prefix, Under(k, paths)[i])
    {
      assert ([k] + paths[i])[1..] == paths[i];
    }
  }

  lemma PairedLeaf(k: Key, v: int, prefix: Key)
    ensures Paired([[k]], [(FullKey(prefix, k), v)], prefix)
  {
    assert |[k][1..]| == 0;
  }

  /** For any keys: the full key of each leaf is that of its path. */
  lemma {:induction false} LeavesHavePaths(fields: seq<Field>, prefix: Key)
    ensures Paired(PathList(fields), LeafList(fields, prefix), prefix)
    decreases fields
  {
    hide Paired, FullKey, Under;
    if fields == [] {
      NothingPaired(prefix);
    } else {
      var init, f := fields[..|fields| - 1], fields[|fields| - 1];
      LeavesHavePaths(init, prefix);
      match f.value {
        case Leaf(v) =>
          PairedLeaf(f.key, v, prefix);
          PairedConcat(PathList(init), LeafList(init, prefix), [[f.key]], [(FullKey(prefix, f.key), v)], prefix);
        case Nested(inner) =>
          var leaves := LeafList(inner, FullKey(prefix, f.key));
          LeavesHavePaths(inner, FullKey(prefix, f.key));
          PairedUnder(f.key, PathList(inner), leaves, prefix);
          PairedConcat(PathList(init), LeafList(init, prefix), Under(f.key, PathList(inner)), leaves, prefix);
      }
    }
  }

  lemma NothingPaired(prefix: Key)
    ensures Paired([], [], prefix)
  {}

  lemma {:induction false} FullPathJoins(prefix: Key, path: seq<Key>)
    requires path != [] && prefix != ""
    ensures FullPath(prefix, path) == prefix + "/" + Join(path)
    decreases |path|
  {
    if |path| == 1 {
      assert |path[1..]| == 0;
    } else {
      FullPathJoins(FullKey(prefix, path[0]), path[1..]);
      assert prefix + "/" + path[0] + "/" + Join(path[1..]) == prefix + "/" + (path[0] + "/" + Join(path[1..]));
    }
  }

  /** A path that does not start with an empty key, or is one key, is joined as it stands. */
  lemma FullPathIsJoin(path: seq<Key>)
    requires path != [] && (path[0] != "" || |path| == 1)
    ensures FullPath("", path) == Join(path)
  {
    if |path| == 1 {
      assert |path[1..]| == 0;
    } else {
      FullPathJoins(path[0], path[1..]);
    }
  }

  lemma {:induction false} EmptyStartLost(path: seq<Key>)
    requires |path| > 1 && path[0] == "" && SlashFree(path)
    ensures |Split(FullPath("", path), "")| < |path|
    decreases |path|
  {
    var rest := path[1..];
    assert forall k :: k in rest ==> k in path;
    if |rest| > 1 && rest[0] == "" {
      EmptyStartLost(rest);
    } else {
      FullPathIsJoin(rest);
      SplitUndoesJoin(rest);
    }
  }

  /**
   * For any keys: splitting the flat key of a leaf at its slashes gives the path of the leaf if and
   * only if no key on the path has a slash, and the path does not go down from an empty key.
   */
  lemma SplitUndoesFlatten(fields: seq<Field>, i: nat)
    requires i < |PathList(fields)|
    ensures |LeafList(fields, "")| == |PathList(fields)| && PathList(fields)[i] != []
    ensures var path := PathList(fields)[i];
            Split(LeafList(fields, "")[i].0, "") == path <==> SlashFree(path) && (path[0] != "" || |path| == 1)
  {
    LeavesHavePaths(fields, "");
    var path := PathList(fields)[i];
    if path[0] != "" || |path| == 1 {
      FullPathIsJoin(path);
      SplitUndoesJoin(path);
    } else if SlashFree(path) {
      EmptyStartLost(path);
    } else {
      SplitParts(FullPath("", path), "");
    }
  }

  /**
   * What other keys can do: a slash or an empty key merges two leaves, an empty map leaves no trace,
   * and different data can have the same flat map.
   */
  lemma OtherKeysMerge()
    ensures LeafList([Field("a/b", Leaf(1))], "") == LeafList([Field("a", Nested([Field("b", Leaf(1))]))], "")
    ensures LeafList([Field("a/b", Leaf(1)), Field("a", Nested([Field("b", Leaf(2))]))], "") == [("a/b", 1), ("a/b", 2)]
    ensures LeafList([Field("", Nested([Field("a", Leaf(1))])), Field("a", Leaf(2))], "") == [("a", 1), ("a", 2)]
    ensures LeafList([Field("a", Nested([]))], "") == []
  {
    LeafListOne(Field("a/b", Leaf(1)), "");
    LeafListOne(Field("a", Nested([Field("b", Leaf(1))])), "");
    LeafListOne(Field("b", Leaf(1)), "a");
    LeafListTwo(Field("a/b", Leaf(1)), Field("a", Nested([Field("b", Leaf(2))])));
    LeafListOne(Field("b", Leaf(2)), "a");
    assert "a" + "/" + "b" == "a/b";
    LeafListTwo(Field("", Nested([Field("a", Leaf(1))])), Field("a", Leaf(2)));
    LeafListOne(Field("a", Leaf(1)), "");
    LeafListOne(Field("a", Nested([])), "");
  }

  function LeafPiece(f: Field, prefix: Key): seq<(Key, int)> {
    match f.value
    case Leaf(v) => [(FullKey(prefix, f.key), v)]
    case Nested(inner) => LeafList(inner, FullKey(prefix, f.key))
  }

  lemma LeafListOne(f: Field, prefix: Key)
    ensures LeafList([f], prefix) == LeafPiece(f, prefix)
  {
    assert [f][..0] == [] && LeafList([f][..0], prefix) == [];
    assert [] + LeafPiece(f, prefix) == LeafPiece(f, prefix);
  }

  lemma LeafListTwo(f: Field, g: Field)
    ensures LeafList([f, g], "") == LeafPiece(f, "") + LeafPiece(g, "")
  {
    assert [f, g][..1] == [f];
    LeafListOne(f, "");
  }
}
