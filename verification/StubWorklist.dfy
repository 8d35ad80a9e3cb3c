/**
  The worklist of scripts/gen-py-stdlib.py that loads the allowed module stubs and, transitively,
  the targets of their star imports.
 */
module StubWorklist {
  import opened Reexports

  /** A stub file and the module it is loaded as. */
  datatype Source = Source(path: string, moduleQn: string)

  /** What is read from a stub: its definitions, and the targets of its star imports. */
  datatype Parsed = Parsed(classes: seq<Stub>, functions: seq<Stub>, targets: seq<string>)

  /** A loaded module. */
  datatype Loaded = Loaded(source: Source, parsed: Parsed)

  /**
    The stub files: the file a star target resolves to, when there is one, and what parsing a file as a
    module yields.
   */
  datatype Library = Library(stubFile: map<string, string>, parse: Source -> Parsed)

  function ModuleSet(ss: seq<Source>): (ms: set<string>) {
    set s | s in ss :: s.moduleQn
  }

  function Entries(loaded: seq<Loaded>): (ms: set<string>) {
    set e | e in loaded :: e.source.moduleQn
  }

  /** The module was loaded, from its source's file. */
  predicate LoadedAs(lib: Library, e: Loaded) {
    e.parsed == lib.parse(e.source)
  }

  /** The source comes from the allow list, or is the file of a star target of an earlier module. */
  predicate Wanted(lib: Library, allowed: seq<Source>, earlier: seq<Loaded>, s: Source) {
    || s in allowed
    || (&& s.moduleQn in lib.stubFile && s.path == lib.stubFile[s.moduleQn]
        && exists e :: e in earlier && s.moduleQn in e.parsed.targets)
  }

  lemma WantedLater(lib: Library, allowed: seq<Source>, earlier: seq<Loaded>, e: Loaded, s: Source)
    requires Wanted(lib, allowed, earlier, s)
    ensures Wanted(lib, allowed, earlier + [e], s)
  {
    if s !in allowed {
      var e' :| e' in earlier && s.moduleQn in e'.parsed.targets;
      assert e' in earlier + [e];
    }
  }

  /** Every entry is parsed from its source, wanted by what came before it, and no module is loaded twice. */
  ghost predicate Justified(lib: Library, allowed: seq<Source>, loaded: seq<Loaded>) {
    forall i :: 0 <= i < |loaded| ==>
      && LoadedAs(lib, loaded[i])
      && Wanted(lib, allowed, loaded[..i], loaded[i].source)
      && loaded[i].source.moduleQn !in Entries(loaded[..i])
  }

  lemma JustifiedNext(lib: Library, allowed: seq<Source>, loaded: seq<Loaded>, e: Loaded)
    requires Justified(lib, allowed, loaded)
    requires LoadedAs(lib, e) && Wanted(lib, allowed, loaded, e.source) && e.source.moduleQn !in Entries(loaded)
    ensures Justified(lib, allowed, loaded + [e])
  {
    var all := loaded + [e];
    forall i | 0 <= i < |all|
      ensures LoadedAs(lib, all[i]) && Wanted(lib, allowed, all[..i], all[i].source) &&
              all[i].source.moduleQn !in Entries(all[..i])
    {
      if i < |loaded| {
        assert all[..i] == loaded[..i] && all[i] == loaded[i];
      } else {
        assert all[..i] == loaded;
      }
    }
  }

  /** Every seen target that has a file is loaded or still queued. */
  ghost predicate Pending(lib: Library, seen: set<string>, loaded: seq<Loaded>, queue: seq<Source>) {
    forall t :: t in seen && t in lib.stubFile ==> t in Entries(loaded) || t in ModuleSet(queue)
  }

  /** The star targets of every loaded module are seen. */
  ghost predicate TargetsSeen(seen: set<string>, loaded: seq<Loaded>) {
    forall e, t :: e in loaded && t in e.parsed.targets ==> t in seen
  }

  /** Whatever a loaded module star-imports is loaded when it has a stub file. */
  ghost predicate Closed(lib: Library, loaded: seq<Loaded>) {
    forall e, t :: e in loaded && t in e.parsed.targets && t in lib.stubFile ==> t in Entries(loaded)
  }

  lemma ModuleSetAppend(ss: seq<Source>, s: Source)
    ensures ModuleSet(ss + [s]) == ModuleSet(ss) + {s.moduleQn}
  {
    assert s in ss + [s];
  }

  lemma EntriesAppend(loaded: seq<Loaded>, e: Loaded)
    ensures Entries(loaded + [e]) == Entries(loaded) + {e.source.moduleQn}
  {
    assert e in loaded + [e];
  }

  /** Queues the files of the targets not seen before. */
  method Enqueue(lib: Library, targets: seq<string>, seen: set<string>, queue: seq<Source>)
    returns (seen': set<string>, queue': seq<Source>)
    ensures seen' == seen + (set t | t in targets)
    ensures queue <= queue'
    ensures forall t :: t in targets && t !in seen && t in lib.stubFile ==> t in ModuleSet(queue')
    ensures forall s :: s in queue' ==>
              s in queue || (s.moduleQn in targets && s.moduleQn in lib.stubFile && s.path == lib.stubFile[s.moduleQn])
  {
    seen', queue' := seen, queue;
    for i := 0 to |targets|
      invariant seen' == seen + (set t | t in targets[..i])
      invariant queue <= queue'
      invariant forall t :: t in targets[..i] && t !in seen && t in lib.stubFile ==> t in ModuleSet(queue')
      invariant forall s :: s in queue' ==>
                  s in queue || (s.moduleQn in targets && s.moduleQn in lib.stubFile &&
                      s.path == lib.stubFile[s.moduleQn])
    {
      var t := targets[i];
      assert targets[..i + 1] == targets[..i] + [t];
      if t in seen' {
        continue;
      }
      seen' := seen' + {t};
      if t in lib.stubFile {
        ModuleSetAppend(queue', Source(lib.stubFile[t], t));
        queue' := queue' + [Source(lib.stubFile[t], t)];
      }
    }
    assert targets[..|targets|] == targets;
  }

  /** One module is loaded and its targets are queued. */
  method Load(lib: Library, ghost allowed: seq<Source>, s: Source, seen: set<string>,
                 loaded: seq<Loaded>, queue: seq<Source>)
    returns (seen': set<string>, loaded': seq<Loaded>, queue': seq<Source>)
    requires Justified(lib, allowed, loaded) && Wanted(lib, allowed, loaded, s) && s.moduleQn !in Entries(loaded)
    requires forall q :: q in queue ==> Wanted(lib, allowed, loaded, q)
    requires Pending(lib, seen, loaded, queue + [s]) && TargetsSeen(seen, loaded)
    ensures Justified(lib, allowed, loaded') && forall q :: q in queue' ==> Wanted(lib, allowed, loaded', q)
    ensures Pending(lib, seen', loaded', queue') && TargetsSeen(seen', loaded') && queue <= queue'
    ensures Entries(loaded') == Entries(loaded) + {s.moduleQn}
  {
    var parsed := lib.parse(s);
    loaded' := loaded + [Loaded(s, parsed)];
    JustifiedNext(lib, allowed, loaded, Loaded(s, parsed));
    EntriesAppend(loaded, Loaded(s, parsed));
    ModuleSetAppend(queue, s);
    seen', queue' := Enqueue(lib, parsed.targets, seen, queue);
    forall q | q in queue'
      ensures Wanted(lib, allowed, loaded', q)
    {
      if q in queue {
        WantedLater(lib, allowed, loaded, Loaded(s, parsed), q);
      } else {
        assert Loaded(s, parsed) in loaded';
      }
    }
    assert forall q :: q in queue ==> q in queue';
    assert forall m :: m in ModuleSet(queue) ==> m in ModuleSet(queue');
  }

  /** Every allowed module is loaded or queued. */
  ghost predicate AllowedPending(allowed: seq<Source>, loaded: seq<Loaded>, queue: seq<Source>) {
    ModuleSet(allowed) <= Entries(loaded) + ModuleSet(queue)
  }

  /** The modules there are to load. */
  ghost function Universe(lib: Library, allowed: seq<Source>): set<string> {
    ModuleSet(allowed) + lib.stubFile.Keys
  }

  lemma InUniverse(lib: Library, allowed: seq<Source>, loaded: seq<Loaded>, s: Source)
    requires Wanted(lib, allowed, loaded, s)
    ensures s.moduleQn in Universe(lib, allowed)
  {
  }

  // A popped source that is loaded already is not missed.
  lemma Skipped(lib: Library, seen: set<string>, loaded: seq<Loaded>, queue: seq<Source>, s: Source)
    requires Pending(lib, seen, loaded, queue + [s]) && s.moduleQn in Entries(loaded)
    ensures Pending(lib, seen, loaded, queue)
  {
    ModuleSetAppend(queue, s);
  }

  lemma OneLess(universe: set<string>, done: set<string>, m: string)
    requires m in universe && m !in done
    ensures |universe - (done + {m})| < |universe - done|
  {
    assert universe - (done + {m}) == (universe - done) - {m};
  }

  lemma ModuleSetPrefix(a: seq<Source>, b: seq<Source>)
    requires a <= b
    ensures ModuleSet(a) <= ModuleSet(b)
  {
    assert forall s :: s in a ==> s in b;
  }

  lemma SplitLast(ss: seq<Source>)
    requires ss != []
    ensures ss == ss[..|ss| - 1] + [ss[|ss| - 1]]
  {
  }

  /** How a worklist stands: what is loaded, queued and seen fits together. */
  ghost predicate Standing(lib: Library, allowed: seq<Source>, seen: set<string>, loaded: seq<Loaded>,
                           queue: seq<Source>) {
    && Justified(lib, allowed, loaded) && (forall q :: q in queue ==> Wanted(lib, allowed, loaded, q))
    && Pending(lib, seen, loaded, queue) && TargetsSeen(seen, loaded) && AllowedPending(allowed, loaded, queue)
  }

  ghost function ToLoad(lib: Library, allowed: seq<Source>, loaded: seq<Loaded>): nat {
    |Universe(lib, allowed) - Entries(loaded)|
  }

  /** One turn: the last source is taken off, and loaded unless its module is there already. */
  method TakeSource(lib: Library, ghost allowed: seq<Source>, seen: set<string>, loaded: seq<Loaded>,
                    queue: seq<Source>)
    returns (seen': set<string>, loaded': seq<Loaded>, queue': seq<Source>)
    requires queue != [] && Standing(lib, allowed, seen, loaded, queue)
    ensures Standing(lib, allowed, seen', loaded', queue')
    ensures ToLoad(lib, allowed, loaded') < ToLoad(lib, allowed, loaded) || (loaded' == loaded && |queue'| < |queue|)
  {
    SplitLast(queue);
    var s, rest := queue[|queue| - 1], queue[..|queue| - 1];
    ModuleSetAppend(rest, s);
    if s.moduleQn in Entries(loaded) {
      Skipped(lib, seen, loaded, rest, s);
      seen', loaded', queue' := seen, loaded, rest;
    } else {
      InUniverse(lib, allowed, loaded, s);
      OneLess(Universe(lib, allowed), Entries(loaded), s.moduleQn);
      seen', loaded', queue' := Load(lib, allowed, s, seen, loaded, rest);
      ModuleSetPrefix(rest, queue');
    }
  }

  lemma Emptied(lib: Library, allowed: seq<Source>, seen: set<string>, loaded: seq<Loaded>)
    requires Standing(lib, allowed, seen, loaded, [])
    ensures Closed(lib, loaded) && ModuleSet(allowed) <= Entries(loaded)
  {
    assert ModuleSet([]) == {};
  }

  /** The entry of a module, as it was read from a file that the module may have. */
  ghost predicate ReadFrom(lib: Library, allowed: seq<Source>, loaded: seq<Loaded>, e: Loaded) {
    && e.parsed == lib.parse(e.source)
    && (e.source in allowed ||
        (e.source.moduleQn in lib.stubFile && e.source.path == lib.stubFile[e.source.moduleQn] &&
         exists e' :: e' in loaded && e.source.moduleQn in e'.parsed.targets))
  }

  lemma JustifiedTells(lib: Library, allowed: seq<Source>, loaded: seq<Loaded>)
    requires Justified(lib, allowed, loaded)
    ensures forall e :: e in loaded ==> ReadFrom(lib, allowed, loaded, e)
    ensures forall i, j :: 0 <= i < j < |loaded| ==> loaded[i].source.moduleQn != loaded[j].source.moduleQn
  {
    forall i | 0 <= i < |loaded|
      ensures ReadFrom(lib, allowed, loaded, loaded[i])
    {
      assert LoadedAs(lib, loaded[i]) && Wanted(lib, allowed, loaded[..i], loaded[i].source);
      assert forall e :: e in loaded[..i] ==> e in loaded;
    }
    forall i, j | 0 <= i < j < |loaded|
      ensures loaded[i].source.moduleQn != loaded[j].source.moduleQn
    {
      assert loaded[j].source.moduleQn !in Entries(loaded[..j]);
      assert loaded[..j][i] == loaded[i];
    }
  }

  /**
    collect_all_stubs: ends; loads every allowed module, nothing that is not wanted, and all star
    targets of what it loads that have a file.
   */
  method CollectAllStubs(lib: Library, allowed: seq<Source>) returns (loaded: seq<Loaded>)
    ensures Justified(lib, allowed, loaded) && Closed(lib, loaded)
    ensures ModuleSet(allowed) <= Entries(loaded)
    ensures forall e :: e in loaded ==> ReadFrom(lib, allowed, loaded, e)
    ensures forall i, j :: 0 <= i < j < |loaded| ==> loaded[i].source.moduleQn != loaded[j].source.moduleQn
  {
    var queue, seen: set<string> := allowed, {};
    loaded := [];
    while queue != []
      invariant Standing(lib, allowed, seen, loaded, queue)
      decreases ToLoad(lib, allowed, loaded), |queue|
    {
      seen, loaded, queue := TakeSource(lib, allowed, seen, loaded, queue);
    }
    Emptied(lib, allowed, seen, loaded);
    JustifiedTells(lib, allowed, loaded);
  }
}
