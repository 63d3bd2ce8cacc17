/**
 * Collecting, depth first into one set, every dictionary that can be got to
 * from what operations return; and that the set is the least closed one. A
 * dictionary's members are visited when it is first met.
 */
module ReadDictionaries {
  import opened Basics
  import opened WebIdl

  type Dictionaries = map<string, IdlDictionary>

  /** The last dictionary of each name. */
  function ByName(dictionaries: seq<IdlDictionary>): Dictionaries {
    if dictionaries == [] then map[]
    else
      var last := dictionaries[|dictionaries| - 1];
      ByName(dictionaries[..|dictionaries| - 1])[last.name := last]
  }

  /** The dictionaries a type names, itself or in its arguments. */
  function Named(all: Dictionaries, t: IdlType): set<string>
    decreases t
  {
    (if t.name in all then {t.name} else {}) + NamedByAny(all, t.arguments)
  }

  function NamedByAny(all: Dictionaries, types: seq<IdlType>): set<string>
    decreases types
  {
    if types == [] then {} else Named(all, types[0]) + NamedByAny(all, types[1..])
  }

  function MemberTypes(definition: IdlDictionary): (r: seq<IdlType>)
    ensures |r| == |definition.members|
  {
    seq(|definition.members|, i requires 0 <= i < |definition.members| => definition.members[i].type_)
  }

  /** The dictionaries the members of the dictionary `name` hold. */
  function Held(all: Dictionaries, name: string): set<string>
    requires name in all
  {
    NamedByAny(all, MemberTypes(all[name]))
  }

  /** Whether `names` holds what each of its dictionaries in `of` holds. */
  predicate IsClosed(all: Dictionaries, of: set<string>, names: set<string>) {
    forall name :: name in of && name in all ==> Held(all, name) <= names
  }

  ghost predicate IsLeast(all: Dictionaries, roots: set<string>, names: set<string>) {
    && roots <= names && IsClosed(all, names, names)
    && forall other: set<string> :: roots <= other && IsClosed(all, other, other) ==> names <= other
  }

  lemma {:induction false} NamedUpTo(all: Dictionaries, types: seq<IdlType>, i: nat)
    requires i < |types|
    ensures NamedByAny(all, types[..i + 1]) == NamedByAny(all, types[..i]) + Named(all, types[i])
  {
    assert types[..i + 1][1..] == types[1..][..i];
    if i > 0 {
      assert types[..i][1..] == types[1..][..i - 1];
      NamedUpTo(all, types[1..], i - 1);
    }
  }

  /** What visiting types that name `names` makes of `before`: it adds what they name, and all that holds. */
  ghost predicate Visited(all: Dictionaries, names: set<string>, before: set<string>, after: set<string>) {
    && before + names <= after <= before + all.Keys
    && IsClosed(all, after - before, after)
    && forall other: set<string> :: names <= other && IsClosed(all, other, other) ==> after - before <= other
  }

  lemma VisitedNothing(all: Dictionaries, before: set<string>)
    ensures Visited(all, {}, before, before)
  {
  }

  lemma VisitedThen(all: Dictionaries, first: set<string>, second: set<string>,
                    before: set<string>, between: set<string>, after: set<string>)
    requires Visited(all, first, before, between) && Visited(all, second, between, after)
    ensures Visited(all, first + second, before, after)
  {
    forall name | name in after - before && name in all ensures Held(all, name) <= after {
      assert name in between - before || name in after - between;
    }
  }

  /** A dictionary first met, and then what it holds. */
  lemma VisitedNew(all: Dictionaries, name: string, before: set<string>, after: set<string>)
    requires name in all && name !in before && Visited(all, Held(all, name), before + {name}, after)
    ensures Visited(all, {name}, before, after)
  {
    forall n | n in after - before && n in all ensures Held(all, n) <= after {
      assert n == name || n in after - (before + {name});
    }
    forall other: set<string> | {name} <= other && IsClosed(all, other, other) ensures after - before <= other {
      assert Held(all, name) <= other;
      assert after - (before + {name}) <= other;
    }
  }

  class Reader {
    const dictionaries: Dictionaries
    var read: set<string>

    constructor (dictionaries: Dictionaries)
      ensures this.dictionaries == dictionaries && read == {}
    {
      this.dictionaries := dictionaries;
      read := {};
    }

    method Visit(t: IdlType)
      modifies this
      ensures Visited(dictionaries, Named(dictionaries, t), old(read), read)
      decreases dictionaries.Keys - read, t, 1
    {
      ghost var before := read;
      ghost var own := if t.name in dictionaries then {t.name} else {};
      VisitedNothing(dictionaries, read);
      if t.name in dictionaries && t.name !in read {
        read := read + {t.name};
        var types := MemberTypes(dictionaries[t.name]);
        for i := 0 to |types|
          invariant Visited(dictionaries, NamedByAny(dictionaries, types[..i]), before + {t.name}, read)
        {
          ghost var between := read;
          Visit(types[i]);
          NamedUpTo(dictionaries, types, i);
          VisitedThen(dictionaries, NamedByAny(dictionaries, types[..i]), Named(dictionaries, types[i]),
                      before + {t.name}, between, read);
        }
        assert types[..|types|] == types;
        VisitedNew(dictionaries, t.name, before, read);
      }
      assert Visited(dictionaries, own, before, read);
      ghost var met := read;
      VisitedNothing(dictionaries, read);
      for i := 0 to |t.arguments|
        invariant met <= read
        invariant Visited(dictionaries, NamedByAny(dictionaries, t.arguments[..i]), met, read)
      {
        ghost var between := read;
        Visit(t.arguments[i]);
        NamedUpTo(dictionaries, t.arguments, i);
        VisitedThen(dictionaries, NamedByAny(dictionaries, t.arguments[..i]), Named(dictionaries, t.arguments[i]),
                    met, between, read);
      }
      assert t.arguments[..|t.arguments|] == t.arguments;
      VisitedThen(dictionaries, own, NamedByAny(dictionaries, t.arguments), before, met, read);
    }
  }

  // The dictionaries of a page.

  function Operations(interfaces: seq<IdlInterface>): seq<IdlOperation> {
    if interfaces == [] then [] else interfaces[0].members.operations + Operations(interfaces[1..])
  }

  function ReturnTypes(operations: seq<IdlOperation>): (r: seq<IdlType>)
    ensures |r| == |operations|
  {
    seq(|operations|, i requires 0 <= i < |operations| => operations[i].returnType)
  }

  /** The names of the types of arguments. */
  function PassedNames(operations: seq<IdlOperation>): seq<string> {
    if operations == [] then [] else ArgumentNames(operations[0].arguments) + PassedNames(operations[1..])
  }

  function ArgumentNames(arguments: seq<IdlArgument>): seq<string> {
    if arguments == [] then [] else [arguments[0].type_.name] + ArgumentNames(arguments[1..])
  }

  function Among(names: set<string>): string -> bool {
    name => name in names
  }

  /** Whether `names` is the least set that has each dictionary an operation returns, and each that one of its
      dictionaries holds. */
  ghost predicate IsRead(idl: Idl, names: set<string>) {
    var all := ByName(idl.dictionaries);
    IsLeast(all, NamedByAny(all, ReturnTypes(Operations(idl.interfaces))), names)
  }

  lemma ReadIsUnique(idl: Idl, a: set<string>, b: set<string>)
    requires IsRead(idl, a) && IsRead(idl, b)
    ensures a == b
  {
  }

  /** The names of the types of arguments that are among `names`. */
  function Passed(idl: Idl, names: set<string>): seq<string> {
    Filter(PassedNames(Operations(idl.interfaces)), Among(names))
  }

  /** The set `IsRead` describes, or the names in it that arguments have for a type, if there are any. */
  method ReadDictionaries(idl: Idl) returns (r: Result<set<string>, seq<string>>)
    ensures r.Success? ==> IsRead(idl, r.value) && Passed(idl, r.value) == []
    ensures r.Failure? ==> r.error != [] && exists names :: IsRead(idl, names)
    ensures r.Failure? ==> forall names :: IsRead(idl, names) ==> Passed(idl, names) == r.error
  {
    var reader := new Reader(ByName(idl.dictionaries));
    var operations := Operations(idl.interfaces);
    var types := ReturnTypes(operations);
    ghost var all := reader.dictionaries;
    VisitedNothing(all, {});
    for i := 0 to |types|
      invariant fresh(reader)
      invariant Visited(all, NamedByAny(all, types[..i]), {}, reader.read)
    {
      ghost var between := reader.read;
      reader.Visit(types[i]);
      NamedUpTo(all, types, i);
      VisitedThen(all, NamedByAny(all, types[..i]), Named(all, types[i]), {}, between, reader.read);
    }
    assert types[..|types|] == types;
    assert reader.read - {} == reader.read;
    assert IsRead(idl, reader.read);
    forall names | IsRead(idl, names) ensures names == reader.read {
      ReadIsUnique(idl, names, reader.read);
    }
    var passed := Passed(idl, reader.read);
    r := if passed == [] then Success(reader.read) else Failure(passed);
  }
}
