/**
 * Reading and writing one value of a JSON config. A config is a map from keys
 * here, so the order of its keys is not kept.
 */
module ConfigDocument {
  import opened Basics

  datatype Json =
    | Null
    | Bool(truth: bool)
    | Number(number: real)
    | Text(text: string)
    | Array(items: seq<Json>)
    | Object(entries: map<string, Json>)

  type Document = map<string, Json>

  datatype Key = Name(name: string) | Index(index: nat)

  /** The steps that lead into nested containers; `[]` is the document itself. */
  type Path = seq<Key>

  const NOT_A_SECTION := "A config path starts at a section"

  /** What is under `key`, if anything is. */
  function Child(json: Option<Json>, key: Key): Option<Json> {
    if json.None? then None
    else
      match key
      case Index(i) => if json.value.Array? && i < |json.value.items| then Some(json.value.items[i]) else None
      case Name(name) =>
        if json.value.Object? && name in json.value.entries then Some(json.value.entries[name]) else None
  }

  function Below(json: Option<Json>, path: Path): Option<Json>
    decreases |path|
  {
    if path == [] then json else Below(Child(json, path[0]), path[1..])
  }

  /** What `path` leads to in `document`; `None` where it leads nowhere. */
  function ValueAt(document: Document, path: Path): Option<Json> {
    Below(Some(Object(document)), path)
  }

  function Items(container: Option<Json>): seq<Json> {
    if container.Some? && container.value.Array? then container.value.items else []
  }

  function Entries(container: Option<Json>): map<string, Json> {
    if container.Some? && container.value.Object? then container.value.entries else map[]
  }

  /** What takes the place of `container` when `value` is written at `path` in it, or removed for `None`. */
  function At(container: Option<Json>, path: Path, value: Option<Json>): (r: Option<Json>)
    ensures path != [] ==> r.Some?
    decreases |path|, 1
  {
    if path == [] then value
    else
      match path[0]
      case Index(i) => Some(Array(ArrayWith(Items(container), i, path[1..], value)))
      case Name(name) => Some(Object(ObjectWith(Entries(container), name, path[1..], value)))
  }

  function ObjectWith(object_: map<string, Json>, key: string, rest: Path, value: Option<Json>): map<string, Json>
    decreases |rest|, 2
  {
    var next := At(if key in object_ then Some(object_[key]) else None, rest, value);
    if next.None? || IsEmptySection(next.value, rest) then object_ - {key} else object_[key := next.value]
  }

  function ArrayWith(array_: seq<Json>, index: nat, rest: Path, value: Option<Json>): seq<Json>
    decreases |rest|, 2
  {
    var next := At(if index < |array_| then Some(array_[index]) else None, rest, value);
    Spliced(array_, index, if next.None? then [] else [next.value])
  }

  /** `array_` with `items` for the item at `index`, or at the end when it has none there. */
  function Spliced(array_: seq<Json>, index: nat, items: seq<Json>): seq<Json> {
    if index < |array_| then array_[..index] + items + array_[index + 1..] else array_ + items
  }

  /** Whether `value` is an object with nothing in it before the end of the path; a removal takes it away as well. */
  predicate IsEmptySection(value: Json, rest: Path) {
    rest != [] && value == Object(map[])
  }

  /** The document after an update: `Some(value)` is written at `path`, and `None` takes away what is there. */
  function WithValue(document: Document, path: Path, value: Option<Json>): Result<Document, string> {
    if path != [] && path[0].Name? then Success(ObjectWith(document, path[0].name, path[1..], value))
    else Failure(NOT_A_SECTION)
  }

  // One key of a path.

  /** Whether an array index is at most the length of its array. */
  predicate FitsHere(container: Option<Json>, key: Key) {
    key.Index? ==> key.index <= |Items(container)|
  }

  /** Whether every array index on `path` is at most the length of its array. */
  predicate Fits(container: Option<Json>, path: Path)
    decreases |path|
  {
    path == [] || (FitsHere(container, path[0]) && Fits(Child(container, path[0]), path[1..]))
  }

  /** A value written leaves no section empty. */
  lemma {:induction false} NotEmptied(container: Option<Json>, path: Path, value: Json)
    ensures At(container, path, Some(value)).Some?
    ensures path != [] ==> !IsEmptySection(At(container, path, Some(value)).value, path)
    decreases |path|
  {
    if path != [] {
      NotEmptied(Child(container, path[0]), path[1..], value);
      if path[0].Name? {
        assert path[0].name in ObjectWith(Entries(container), path[0].name, path[1..], Some(value));
      }
    }
  }

  /** `container` with `next` under `key`. */
  function Put(container: Option<Json>, key: Key, next: Json): Json {
    match key
    case Index(i) => Array(Spliced(Items(container), i, [next]))
    case Name(name) => Object(Entries(container)[name := next])
  }

  lemma WritesOne(container: Option<Json>, path: Path, value: Json)
    requires path != []
    ensures var next := At(Child(container, path[0]), path[1..], Some(value));
            next.Some? && At(container, path, Some(value)) == Some(Put(container, path[0], next.value))
  {
    NotEmptied(Child(container, path[0]), path[1..], value);
  }

  lemma PutIsUnder(container: Option<Json>, key: Key, next: Json)
    ensures FitsHere(container, key) ==> Child(Some(Put(container, key, next)), key) == Some(next)
    ensures !FitsHere(container, key) ==> Child(Some(Put(container, key, next)), key) == None
  {
  }

  // You read what you wrote.

  lemma {:induction false} NothingBelow(path: Path)
    ensures Below(None, path) == None
    decreases |path|
  {
    if path != [] {
      NothingBelow(path[1..]);
    }
  }

  lemma {:induction false} BelowWritten(container: Option<Json>, path: Path, value: Json)
    ensures Below(At(container, path, Some(value)), path) == Some(value) <==> Fits(container, path)
    decreases |path|
  {
    if path != [] {
      var under := Child(container, path[0]);
      WritesOne(container, path, value);
      PutIsUnder(container, path[0], At(under, path[1..], Some(value)).value);
      BelowWritten(under, path[1..], value);
      NothingBelow(path[1..]);
    }
  }

  /** A value written is read back exactly when no array index on its path is past the end. */
  lemma ReadWhatWasWritten(document: Document, path: Path, value: Json)
    requires path != [] && path[0].Name?
    ensures ValueAt(WithValue(document, path, Some(value)).value, path) == Some(value)
       <==> Fits(Some(Object(document)), path)
  {
    BelowWritten(Some(Object(document)), path, value);
  }

  // The last write wins.

  /** `container` with what is under `key` made `next`. */
  function Placed(container: Option<Json>, key: Key, rest: Path, next: Option<Json>): Json {
    match key
    case Index(i) => Array(Spliced(Items(container), i, if next.None? then [] else [next.value]))
    case Name(name) =>
      Object(if next.None? || IsEmptySection(next.value, rest) then Entries(container) - {name}
             else Entries(container)[name := next.value])
  }

  lemma AtPlaces(container: Option<Json>, path: Path, value: Option<Json>)
    requires path != []
    ensures At(container, path, value)
         == Some(Placed(container, path[0], path[1..], At(Child(container, path[0]), path[1..], value)))
  {
  }

  lemma PlacedTwice(container: Option<Json>, key: Key, rest: Path, first: Json, next: Option<Json>)
    requires FitsHere(container, key)
    ensures Placed(Some(Put(container, key, first)), key, rest, next) == Placed(container, key, rest, next)
  {
    if key.Name? {
      assert Entries(container)[key.name := first] - {key.name} == Entries(container) - {key.name};
    } else {
      var items := if next.None? then [] else [next.value];
      assert Spliced(Spliced(Items(container), key.index, [first]), key.index, items)
          == Spliced(Items(container), key.index, items);
    }
  }

  lemma {:induction false} AtTwice(container: Option<Json>, path: Path, first: Json, second: Option<Json>)
    requires Fits(container, path)
    ensures At(At(container, path, Some(first)), path, second) == At(container, path, second)
    decreases |path|
  {
    if path != [] {
      hide At, Placed, Put;
      var key, rest, under := path[0], path[1..], Child(container, path[0]);
      WritesOne(container, path, first);
      var next := At(under, rest, Some(first)).value;
      var written := Some(Put(container, key, next));
      PutIsUnder(container, key, next);
      AtTwice(under, rest, first, second);
      AtPlaces(written, path, second);
      AtPlaces(container, path, second);
      PlacedTwice(container, key, rest, next, At(under, rest, second));
    }
  }

  lemma PlacedApart(container: Option<Json>, key: Key, rest: Path, next: Json, other: Json)
    requires FitsHere(container, key) && rest != [] && next != other
    ensures Placed(container, key, rest, Some(next)) != Placed(container, key, rest, Some(other))
  {
    var placed, others := Placed(container, key, rest, Some(next)), Placed(container, key, rest, Some(other));
    match key {
      case Index(i) =>
        assert placed.items[i] == next && others.items[i] == other;
      case Name(name) =>
        assert name !in Entries(container) - {name};
        assert !IsEmptySection(next, rest) ==> name in placed.entries && placed.entries[name] == next;
        assert !IsEmptySection(other, rest) ==> name in others.entries && others.entries[name] == other;
    }
  }

  /** A write past the end of an array adds an item each time. */
  lemma {:induction false} AtTwicePastEnd(container: Option<Json>, path: Path, first: Json, second: Option<Json>)
    requires !Fits(container, path)
    ensures At(At(container, path, Some(first)), path, second) != At(container, path, second)
    decreases |path|
  {
    var key, rest, under := path[0], path[1..], Child(container, path[0]);
    WritesOne(container, path, first);
    var next := At(under, rest, Some(first)).value;
    var written := Some(Put(container, key, next));
    PutIsUnder(container, key, next);
    AtPlaces(written, path, second);
    AtPlaces(container, path, second);
    if FitsHere(container, key) {
      AtTwicePastEnd(under, rest, first, second);
      PlacedTwice(container, key, rest, next, At(At(under, rest, Some(first)), rest, second));
      PlacedApart(container, key, rest, At(At(under, rest, Some(first)), rest, second).value,
                  At(under, rest, second).value);
    } else {
      PastEndGrows(container, key.index, rest, next, At(None, rest, second));
    }
  }

  lemma PastEndGrows(container: Option<Json>, index: nat, rest: Path, written: Json, next: Option<Json>)
    requires !FitsHere(container, Index(index))
    ensures var items := Items(container);
            && Items(Some(Put(container, Index(index), written))) == items + [written]
            && |Placed(Some(Put(container, Index(index), written)), Index(index), rest, next).items|
            == |Placed(container, Index(index), rest, next).items| + 1
            && |Placed(container, Index(index), rest, next).items| >= |items|
  {
  }

  /** Writing or removing after a write is as if the first had not been, exactly when no array index on the
      path is past the end. */
  lemma LastWriteWins(document: Document, path: Path, first: Json, second: Option<Json>)
    requires path != [] && path[0].Name?
    ensures WithValue(WithValue(document, path, Some(first)).value, path, second) == WithValue(document, path, second)
       <==> Fits(Some(Object(document)), path)
  {
    var top := Some(Object(document));
    if Fits(top, path) {
      AtTwice(top, path, first, second);
    } else {
      AtTwicePastEnd(top, path, first, second);
    }
  }

  // Writing what is there.

  lemma PutSame(container: Option<Json>, key: Key)
    requires Child(container, key).Some?
    ensures Some(Put(container, key, Child(container, key).value)) == container
  {
    match key {
      case Index(i) => SplicedSame(Items(container), i, [Child(container, key).value]);
      case Name(name) => assert Entries(container)[name := Child(container, key).value] == Entries(container);
    }
  }

  lemma SplicedSame(array_: seq<Json>, index: nat, items: seq<Json>)
    requires |items| <= 1
    ensures Spliced(array_, index, items) == array_
       <==> if index < |array_| then items == [array_[index]] else items == []
  {
    if index < |array_| {
      assert Spliced(array_, index, items) == array_ ==> |items| == 1;
      assert items == [array_[index]] ==> Spliced(array_, index, items) == array_;
      assert |items| == 1 ==> Spliced(array_, index, items)[index] == items[0];
    }
  }

  lemma {:induction false} AtSame(container: Option<Json>, path: Path, value: Json)
    requires Below(container, path) == Some(value)
    ensures At(container, path, Some(value)) == container
    decreases |path|
  {
    if path != [] {
      NothingBelow(path[1..]);
      WritesOne(container, path, value);
      AtSame(Child(container, path[0]), path[1..], value);
      PutSame(container, path[0]);
    }
  }

  /** Writing the value already there changes nothing. */
  lemma WritingItBackChangesNothing(document: Document, path: Path, value: Json)
    requires path != [] && path[0].Name? && ValueAt(document, path) == Some(value)
    ensures WithValue(document, path, Some(value)) == Success(document)
  {
    AtSame(Some(Object(document)), path, value);
  }

  // Other paths.

  /** Whether two paths part at a key of both. */
  predicate Part(p: Path, q: Path) {
    exists i :: 0 <= i < |p| && i < |q| && p[..i] == q[..i] && p[i] != q[i]
  }

  /** Whether a write under `key` keeps what is under the other keys. */
  predicate KeepsHere(container: Option<Json>, key: Key) {
    match key
    case Index(i) => i <= |Items(container)| && Entries(container) == map[]
    case Name(_) => Items(container) == []
  }

  /** Whether no index on `path` is past the end, and no filled section or array is where the other should be. */
  predicate Keeps(container: Option<Json>, path: Path)
    decreases |path|
  {
    path == [] || (KeepsHere(container, path[0]) && Keeps(Child(container, path[0]), path[1..]))
  }

  lemma PutKeeps(container: Option<Json>, key: Key, next: Json, other: Key)
    requires KeepsHere(container, key) && other != key
    ensures Child(Some(Put(container, key, next)), other) == Child(container, other)
  {
  }

  /** What a write under `key` loses, or adds, when it does not keep the rest. */
  lemma PutLoses(container: Option<Json>, key: Key, next: Json) returns (other: Key)
    requires !KeepsHere(container, key)
    ensures other != key && Child(Some(Put(container, key, next)), other) != Child(container, other)
  {
    match key {
      case Index(i) =>
        if i > |Items(container)| {
          other := Index(|Items(container)|);
        } else {
          var name :| name in Entries(container);
          other := Name(name);
        }
      case Name(_) =>
        other := Index(0);
    }
  }

  lemma {:induction false} PartedKept(container: Option<Json>, p: Path, q: Path, i: nat, value: Json)
    requires Keeps(container, p) && i < |p| && i < |q| && p[..i] == q[..i] && p[i] != q[i]
    ensures Below(At(container, p, Some(value)), q) == Below(container, q)
    decreases |p|
  {
    var next := At(Child(container, p[0]), p[1..], Some(value));
    WritesOne(container, p, value);
    if i == 0 {
      PutKeeps(container, p[0], next.value, q[0]);
    } else {
      assert p[..i][0] == q[..i][0];
      PutIsUnder(container, p[0], next.value);
      assert p[1..][..i - 1] == p[..i][1..] && q[1..][..i - 1] == q[..i][1..];
      PartedKept(Child(container, p[0]), p[1..], q[1..], i - 1, value);
    }
  }

  lemma {:induction false} PartedLost(container: Option<Json>, p: Path, value: Json) returns (q: Path, i: nat)
    requires !Keeps(container, p)
    ensures i < |p| && i < |q| && p[..i] == q[..i] && p[i] != q[i]
    ensures Below(At(container, p, Some(value)), q) != Below(container, q)
    decreases |p|
  {
    var next := At(Child(container, p[0]), p[1..], Some(value));
    WritesOne(container, p, value);
    if !KeepsHere(container, p[0]) {
      var other := PutLoses(container, p[0], next.value);
      q, i := [other], 0;
      assert q[1..] == [];
    } else {
      var rest, j := PartedLost(Child(container, p[0]), p[1..], value);
      PutIsUnder(container, p[0], next.value);
      q, i := [p[0]] + rest, j + 1;
      assert q[1..] == rest;
      assert p[..i] == [p[0]] + p[1..][..j] && q[..i] == [p[0]] + rest[..j];
    }
  }

  /** A write keeps the value at every path that parts from its own exactly when no array index on its
      path is past the end and it replaces no filled section by an array, nor a filled array by a section. */
  lemma OtherPathsKept(document: Document, path: Path, value: Json)
    requires path != [] && path[0].Name?
    ensures var written := WithValue(document, path, Some(value)).value;
            Keeps(Some(Object(document)), path)
            <==> forall other :: Part(path, other) ==> ValueAt(written, other) == ValueAt(document, other)
  {
    var top := Some(Object(document));
    var written := WithValue(document, path, Some(value)).value;
    if Keeps(top, path) {
      forall other | Part(path, other) ensures ValueAt(written, other) == ValueAt(document, other) {
        var i :| 0 <= i < |path| && i < |other| && path[..i] == other[..i] && path[i] != other[i];
        PartedKept(top, path, other, i, value);
      }
    } else {
      var other, i := PartedLost(top, path, value);
      assert Part(path, other);
    }
  }

  // Writing a value and removing it.

  predicate IsSection(container: Option<Json>) {
    container.Some? && container.value.Object?
  }

  predicate IsArray(container: Option<Json>) {
    container.Some? && container.value.Array?
  }

  predicate AllNames(path: Path) {
    forall i :: 0 <= i < |path| ==> path[i].Name?
  }

  /** Whether `container` has nothing at `path`, nor an empty section or another kind of value on the way
      there, and the arrays on the way have the items named. */
  predicate LeavesNoTrace(container: Option<Json>, path: Path)
    requires path != []
    decreases |path|
  {
    var under, rest := Child(container, path[0]), path[1..];
    match path[0]
    case Index(i) =>
      IsArray(container) && if rest == [] then under.None? else under.Some? && LeavesNoTrace(under, rest)
    case Name(_) =>
      IsSection(container)
      && if under.None? then AllNames(rest)
         else rest != [] && under.value != Object(map[]) && LeavesNoTrace(under, rest)
  }

  lemma PlacedSame(container: Option<Json>, key: Key, rest: Path, next: Option<Json>)
    requires rest != [] ==> next.Some?
    ensures Some(Placed(container, key, rest, next)) == container
       <==> match key
            case Index(i) =>
              IsArray(container)
              && if next.None? then Child(container, key).None? else Child(container, key) == next
            case Name(_) =>
              IsSection(container)
              && if next.None? || IsEmptySection(next.value, rest) then Child(container, key).None?
                 else Child(container, key) == next
  {
    var items, entries := Items(container), Entries(container);
    match key {
      case Index(i) =>
        SplicedSame(items, i, if next.None? then [] else [next.value]);
        assert i < |items| && next.Some? ==> ([next.value] == [items[i]] <==> next.value == items[i]);
      case Name(name) =>
        assert name !in entries ==> entries - {name} == entries;
        assert name !in entries - {name};
        if next.Some? {
          assert name in entries && entries[name] == next.value ==> entries[name := next.value] == entries;
          assert name in entries[name := next.value] && entries[name := next.value][name] == next.value;
        }
    }
  }

  /** Removing what is not there makes an empty section, unless an array is on the way. */
  lemma {:induction false} RemovedFromNothing(path: Path)
    requires path != []
    ensures At(None, path, None) == Some(Object(map[])) <==> AllNames(path)
    decreases |path|
  {
    var rest := path[1..];
    AtPlaces(None, path, None);
    PlacedSame(Some(Object(map[])), path[0], rest, At(None, rest, None));
    assert path == [path[0]] + rest;
    if rest != [] {
      RemovedFromNothing(rest);
    }
  }

  lemma {:induction false} RemovedFromSame(container: Option<Json>, path: Path)
    requires path != []
    ensures At(container, path, None) == container <==> LeavesNoTrace(container, path)
    decreases |path|
  {
    var key, rest, under := path[0], path[1..], Child(container, path[0]);
    AtPlaces(container, path, None);
    PlacedSame(container, key, rest, At(under, rest, None));
    if rest != [] {
      RemovedFromNothing(rest);
      RemovedFromSame(under, rest);
    }
  }

  /** What is written past the end of an array is not removed from there. */
  lemma {:induction false} PastEndStays(container: Option<Json>, path: Path, value: Json)
    requires !Fits(container, path)
    ensures At(At(container, path, Some(value)), path, None) != container
    ensures At(At(container, path, Some(value)), path, None) != Some(Object(map[]))
    decreases |path|
  {
    var key, rest, under := path[0], path[1..], Child(container, path[0]);
    WritesOne(container, path, value);
    var next := At(under, rest, Some(value)).value;
    var written := Some(Put(container, key, next));
    PutIsUnder(container, key, next);
    AtPlaces(written, path, None);
    if FitsHere(container, key) {
      var last := At(Some(next), rest, None);
      PastEndStays(under, rest, value);
      PlacedTwice(container, key, rest, next, last);
      PlacedSame(container, key, rest, last);
      assert key.Name? ==> key.name in Placed(container, key, rest, last).entries;
    } else {
      PastEndGrows(container, key.index, rest, next, At(None, rest, None));
    }
  }

  /** Writing a value and then removing it gives the config back exactly when no array index on the path is
      past the end and nothing but sections and arrays was on the way to nothing. */
  lemma WriteThenRemove(document: Document, path: Path, value: Json)
    requires path != [] && path[0].Name?
    ensures WithValue(WithValue(document, path, Some(value)).value, path, None) == Success(document)
       <==> Fits(Some(Object(document)), path) && LeavesNoTrace(Some(Object(document)), path)
  {
    var top := Some(Object(document));
    if Fits(top, path) {
      LastWriteWins(document, path, value, None);
      RemovedFromSame(top, path);
    } else {
      PastEndStays(top, path, value);
    }
  }
}
