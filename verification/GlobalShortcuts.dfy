/**
 * Which chords stay grabbed as lists of shortcuts come and go, when the grabs
 * of a chord are counted and not all of them are this grabber's.
 */
module GlobalShortcuts {
  import opened Basics

  datatype Shortcut = Shortcut(id: int, chord: string)

  /** The chords in `shortcuts`. */
  function Chords(shortcuts: seq<Shortcut>): set<string> {
    if shortcuts == [] then {} else Chords(shortcuts[..|shortcuts| - 1]) + {shortcuts[|shortcuts| - 1].chord}
  }

  /** The shortcuts of `chord`, in order. */
  function IdsOf(shortcuts: seq<Shortcut>, chord: string): seq<int> {
    if shortcuts == [] then []
    else
      var last := shortcuts[|shortcuts| - 1];
      IdsOf(shortcuts[..|shortcuts| - 1], chord) + if last.chord == chord then [last.id] else []
  }

  /** The chords the engine took. */
  function Taken(grabbed: map<string, bool>): set<string> {
    set chord | chord in grabbed && grabbed[chord]
  }

  lemma OneMore(shortcuts: seq<Shortcut>, i: nat, chord: string)
    requires i < |shortcuts|
    ensures Chords(shortcuts[..i + 1]) == Chords(shortcuts[..i]) + {shortcuts[i].chord}
    ensures IdsOf(shortcuts[..i + 1], chord)
         == IdsOf(shortcuts[..i], chord) + if shortcuts[i].chord == chord then [shortcuts[i].id] else []
  {
    assert shortcuts[..i + 1][..i] == shortcuts[..i];
  }

  lemma NoIds()
    ensures Chords([]) == {} && forall chord :: IdsOf([], chord) == []
  {
  }

  /** The ids of the shortcuts of each chord, in order. */
  method ByChord(shortcuts: seq<Shortcut>) returns (ids: map<string, seq<int>>)
    ensures ids.Keys == Chords(shortcuts)
    ensures forall chord :: chord in ids ==> ids[chord] == IdsOf(shortcuts, chord)
  {
    hide IdsOf;
    ids := map[];
    NoIds();
    for i := 0 to |shortcuts|
      invariant ids.Keys == Chords(shortcuts[..i])
      invariant forall chord :: IdsOf(shortcuts[..i], chord) == if chord in ids then ids[chord] else []
    {
      var s := shortcuts[i];
      forall chord
        ensures IdsOf(shortcuts[..i + 1], chord)
             == IdsOf(shortcuts[..i], chord) + if s.chord == chord then [s.id] else []
      {
        OneMore(shortcuts, i, chord);
      }
      OneMore(shortcuts, i, s.chord);
      ids := ids[s.chord := (if s.chord in ids then ids[s.chord] else []) + [s.id]];
    }
    assert shortcuts[..|shortcuts|] == shortcuts;
  }

  lemma TakenOne(grabbed: map<string, bool>, chord: string, took: bool)
    requires chord !in grabbed
    ensures multiset(Taken(grabbed[chord := took]))
         == multiset(Taken(grabbed)) + if took then multiset{chord} else multiset{}
  {
    assert Taken(grabbed[chord := took]) == Taken(grabbed) + if took then {chord} else {};
  }

  /** Whether chords held before keep what the engine said, and the others have what it says. */
  ghost predicate Tried(before: map<string, bool>, now: map<string, bool>, takes: string -> bool) {
    forall chord :: chord in now ==> now[chord] == if chord in before then before[chord] else takes(chord)
  }

  class Grabber {
    /** By chord: `true` for one held, `false` for one that was refused. */
    var grabbed: map<string, bool>

    /** The shortcuts each chord fires. */
    var byChord: map<string, seq<int>>

    /** The engine's grabs, whoever made them. */
    var grabs: multiset<string>

    /** The engine's grabs that others made. */
    ghost var others: multiset<string>

    ghost predicate Valid()
      reads this
    {
      grabs == others + multiset(Taken(grabbed))
    }

    constructor (grabs: multiset<string>)
      ensures Valid() && others == grabs && grabbed == map[] && byChord == map[]
    {
      this.grabs, this.others := grabs, grabs;
      grabbed, byChord := map[], map[];
    }

    /** Adds a grab of `chord` to the counts when `takes`, which is also the result. */
    method Grab(chord: string, takes: bool) returns (took: bool)
      modifies this`grabs
      ensures took == takes && grabs == if takes then old(grabs) + multiset{chord} else old(grabs)
    {
      if takes {
        grabs := grabs + multiset{chord};
      }
      took := takes;
    }

    method Ungrab(chord: string)
      modifies this`grabs
      ensures grabs == old(grabs) - multiset{chord}
    {
      grabs := grabs - multiset{chord};
    }

    method OtherGrabs(chord: string)
      requires Valid()
      modifies this`grabs, this`others
      ensures Valid() && others == old(others) + multiset{chord}
    {
      grabs, others := grabs + multiset{chord}, others + multiset{chord};
    }

    method OtherUngrabs(chord: string)
      requires Valid() && chord in others
      modifies this`grabs, this`others
      ensures Valid() && others == old(others) - multiset{chord}
    {
      grabs, others := grabs - multiset{chord}, others - multiset{chord};
    }

    /** Takes up the shortcuts listed now. A chord held before keeps its grab; each other is tried once. */
    method Heard(shortcuts: Option<seq<Shortcut>>, takes: string -> bool)
      requires Valid()
      modifies this`grabbed, this`byChord, this`grabs
      ensures Valid()
      ensures shortcuts.None? ==> grabbed == old(grabbed) && byChord == old(byChord)
      ensures shortcuts.Some? ==>
                && grabbed.Keys == byChord.Keys == Chords(shortcuts.value)
                && Tried(old(grabbed), grabbed, takes)
                && forall chord :: chord in byChord ==> byChord[chord] == IdsOf(shortcuts.value, chord)
    {
      hide Chords, Taken, IdsOf;
      if shortcuts.None? {
        return;
      }
      GrabNew(shortcuts.value, takes);
      UngrabStale(Chords(shortcuts.value));
      byChord := ByChord(shortcuts.value);
    }

    /** Asks for `chord`, which is answered with `takes`, and notes the answer. */
    method Try(chord: string, takes: bool)
      requires Valid() && chord !in grabbed
      modifies this`grabbed, this`grabs
      ensures Valid() && grabbed == old(grabbed)[chord := takes]
    {
      hide Taken;
      var took := Grab(chord, takes);
      TakenOne(grabbed, chord, took);
      grabbed := grabbed[chord := took];
    }

    /** Removes `chord` from `grabbed`, with the grab if it had one. */
    method GiveBack(chord: string)
      requires Valid() && chord in grabbed
      modifies this`grabbed, this`grabs
      ensures Valid() && grabbed == old(grabbed) - {chord}
    {
      var took := grabbed[chord];
      grabbed := grabbed - {chord};
      assert Taken(grabbed) == Taken(old(grabbed)) - {chord};
      if took {
        assert chord in Taken(old(grabbed));
        Ungrab(chord);
      }
    }

    method GrabNew(shortcuts: seq<Shortcut>, takes: string -> bool)
      requires Valid()
      modifies this`grabbed, this`grabs
      ensures Valid()
      ensures grabbed.Keys == old(grabbed).Keys + Chords(shortcuts)
      ensures Tried(old(grabbed), grabbed, takes)
    {
      hide Chords, Taken;
      NoIds();
      for i := 0 to |shortcuts|
        invariant Valid()
        invariant grabbed.Keys == old(grabbed).Keys + Chords(shortcuts[..i])
        invariant Tried(old(grabbed), grabbed, takes)
      {
        var chord := shortcuts[i].chord;
        OneMore(shortcuts, i, chord);
        if chord !in grabbed {
          Try(chord, takes(chord));
        }
      }
      assert shortcuts[..|shortcuts|] == shortcuts;
    }

    /** Leaves `grabbed` only the chords in `held`, with their grabs. */
    method UngrabStale(held: set<string>)
      requires Valid()
      modifies this`grabbed, this`grabs
      ensures Valid()
      ensures grabbed.Keys == old(grabbed).Keys * held
      ensures forall chord :: chord in grabbed ==> grabbed[chord] == old(grabbed)[chord]
    {
      var stale := grabbed.Keys - held;
      while stale != {}
        invariant Valid()
        invariant stale <= grabbed.Keys && stale !! held
        invariant grabbed.Keys == old(grabbed).Keys * held + stale
        invariant forall chord :: chord in grabbed ==> chord in old(grabbed) && grabbed[chord] == old(grabbed)[chord]
        decreases stale
      {
        var chord :| chord in stale;
        GiveBack(chord);
        stale := stale - {chord};
      }
    }

    /** Leaves `grabbed` empty, with no grab of its chords kept. */
    method Stop()
      requires Valid()
      modifies this`grabbed, this`grabs
      ensures grabs == others && grabbed == map[]
    {
      UngrabStale({});
      assert grabbed.Keys == {};
      assert Taken(grabbed) == {};
    }

    /** The ids of `chord`, empty for a chord no shortcut has. */
    function Fired(chord: string): seq<int>
      reads this
    {
      if chord in byChord then byChord[chord] else []
    }
  }

  // Whole runs.

  datatype Event =
    | Change(shortcuts: Option<seq<Shortcut>>, takes: string -> bool)
    | OtherGrab(chord: string)
    | OtherUngrab(chord: string)

  /** The grabs of others after `events`. */
  function OthersAfter(others: multiset<string>, events: seq<Event>): multiset<string>
    decreases |events|
  {
    if events == [] then others
    else
      var before := OthersAfter(others, events[..|events| - 1]);
      match events[|events| - 1]
      case Change(_, _) => before
      case OtherGrab(chord) => before + multiset{chord}
      case OtherUngrab(chord) => before - multiset{chord}
  }

  lemma OneMoreEvent(others: multiset<string>, events: seq<Event>, i: nat)
    requires i < |events|
    ensures var before := OthersAfter(others, events[..i]);
            OthersAfter(others, events[..i + 1])
            == match events[i]
               case Change(_, _) => before
               case OtherGrab(chord) => before + multiset{chord}
               case OtherUngrab(chord) => before - multiset{chord}
  {
    assert events[..i + 1][..i] == events[..i];
  }

  /** Whether others give back only what they grabbed. */
  predicate OthersBehave(others: multiset<string>, events: seq<Event>) {
    forall i :: 0 <= i < |events| && events[i].OtherUngrab? ==> events[i].chord in OthersAfter(others, events[..i])
  }

  /** Whatever lists come, and whichever grabs fail, stopping leaves the grabs of others. */
  method RunAndStop(grabs: multiset<string>, events: seq<Event>) returns (left: multiset<string>)
    requires OthersBehave(grabs, events)
    ensures left == OthersAfter(grabs, events)
  {
    var grabber := new Grabber(grabs);
    assert OthersAfter(grabs, events[..0]) == grabs;
    hide OthersAfter, Taken;
    for i := 0 to |events|
      invariant fresh(grabber) && grabber.Valid() && grabber.others == OthersAfter(grabs, events[..i])
    {
      OneMoreEvent(grabs, events, i);
      match events[i] {
        case Change(shortcuts, takes) => grabber.Heard(shortcuts, takes);
        case OtherGrab(chord) => grabber.OtherGrabs(chord);
        case OtherUngrab(chord) => grabber.OtherUngrabs(chord);
      }
    }
    assert events[..|events|] == events;
    grabber.Stop();
    left := grabber.grabs;
  }
}
