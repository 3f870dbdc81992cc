/**
 findDownStreams: the stacks, or projects, that depend on a set of focus files. To save calls
 the search drops focus files while it goes; what it finds is compared with its definition.
 */
module Deps {
  import opened References

  type Path = string

  /** Entrance files come from a settings file, which may be invalid. */
  datatype Settings = Invalid | Entrances(files: seq<Path>)

  datatype Stack = Stack(dir: Path, settings: Settings)

  datatype Project = Project(dir: Path, stacks: seq<Stack>)

  /** A stack, under the name it is reported by: its own directory or its project's. */
  datatype Unit = Unit(name: Path, stack: Stack)

  /** The variables of the search; Bad is the error return. */
  datatype Scan =
    | Bad
    | Scan(focus: set<Path>, entrances: set<Path>, index: map<Path, set<Path>>, down: set<Path>)

  const SEPARATOR := "/"

  predicate IsUnder(f: Path, dir: Path) {
    dir + SEPARATOR <= f
  }

  function StacksOf(p: Project, projectOnly: bool): seq<Unit> {
    seq(|p.stacks|, i requires 0 <= i < |p.stacks| => UnitOf(p, p.stacks[i], projectOnly))
  }

  function UnitsOf(projects: seq<Project>, projectOnly: bool): seq<Unit> {
    if projects == [] then []
    else UnitsOf(projects[..|projects| - 1], projectOnly) + StacksOf(projects[|projects| - 1], projectOnly)
  }

  function UnitOf(p: Project, s: Stack, projectOnly: bool): Unit {
    Unit(if projectOnly then p.dir else s.dir, s)
  }

  /** The entrance files that are not ignored. */
  function Relevant(s: Stack, ignore: set<Path>): set<Path> {
    if s.settings.Invalid? then {} else set e | e in s.settings.files && e !in ignore
  }

  // ---- The search ----

  function AddAll(index: map<Path, set<Path>>, files: set<Path>, name: Path): map<Path, set<Path>> {
    map f | f in index.Keys + files ::
      (if f in index then index[f] else {}) + (if f in files then {name} else {})
  }

  /** What visiting one stack does to the variables. */
  function Visited(s: Scan, u: Unit, ignore: set<Path>): Scan {
    if s.Bad? then Bad
    else
      var under := set f | f in s.focus && IsUnder(f, u.stack.dir);
      var focus := s.focus - under;
      if exists f :: f in under && f !in ignore then Scan(focus, s.entrances, s.index, s.down + {u.name})
      else if u.stack.settings.Invalid? then Bad
      else if Relevant(u.stack, ignore) * focus != {} then Scan(focus, s.entrances, s.index, s.down + {u.name})
      else
        var files := Relevant(u.stack, ignore);
        Scan(focus, s.entrances + files, AddAll(s.index, files, u.name), s.down)
  }

  function ScanAll(units: seq<Unit>, focus: set<Path>, ignore: set<Path>): Scan {
    if units == [] then Scan(focus, {}, map[], {})
    else Visited(ScanAll(units[..|units| - 1], focus, ignore), units[|units| - 1], ignore)
  }

  /** Drop the focus files under the stack, and see whether one of them is not ignored. */
  method DropFocus(focus: set<Path>, dir: Path, ignore: set<Path>) returns (focusPaths: set<Path>, isDownstream: bool)
    ensures focusPaths == focus - (set f | f in focus && IsUnder(f, dir))
    ensures isDownstream <==> exists f :: f in focus && IsUnder(f, dir) && f !in ignore
  {
    focusPaths, isDownstream := focus, false;
    var rest := focus;
    while rest != {}
      invariant rest <= focus
      invariant focusPaths == focus - (set f | f in focus - rest && IsUnder(f, dir))
      invariant isDownstream <==> exists f :: f in focus - rest && IsUnder(f, dir) && f !in ignore
    {
      var f :| f in rest;
      if IsUnder(f, dir) {
        focusPaths := focusPaths - {f};
        if f !in ignore {
          isDownstream := true;
        }
      }
      rest := rest - {f};
    }
  }

  /** Keep the entrance files that are not ignored, and see whether one of them is a focus file. */
  method CollectEntrances(files: seq<Path>, focusPaths: set<Path>, ignore: set<Path>)
    returns (entranceRels: seq<Path>, isDownstream: bool)
    ensures (set e | e in entranceRels) == (set e | e in files && e !in ignore)
    ensures isDownstream <==> (set e | e in files && e !in ignore) * focusPaths != {}
  {
    entranceRels, isDownstream := [], false;
    for i := 0 to |files|
      invariant forall e :: e in entranceRels <==> e in files[..i] && e !in ignore
      invariant isDownstream <==> exists e :: e in files[..i] && e !in ignore && e in focusPaths
    {
      assert files[..i + 1] == files[..i] + [files[i]];
      if files[i] !in ignore {
        entranceRels := entranceRels + [files[i]];
        if files[i] in focusPaths {
          isDownstream := true;
        }
      }
    }
    assert files[..|files|] == files;
    assert forall e :: e in (set e | e in files && e !in ignore) * focusPaths <==>
      e in files && e !in ignore && e in focusPaths;
  }

  /** Record every entrance file under the name of its stack. */
  method IndexEntrances(s: Scan, entranceRels: seq<Path>, name: Path)
    returns (entrances: set<Path>, index: map<Path, set<Path>>)
    requires !s.Bad?
    ensures entrances == s.entrances + (set e | e in entranceRels)
    ensures index == AddAll(s.index, (set e | e in entranceRels), name)
  {
    entrances, index := s.entrances, s.index;
    for i := 0 to |entranceRels|
      invariant entrances == s.entrances + (set e | e in entranceRels[..i])
      invariant index.Keys == s.index.Keys + (set e | e in entranceRels[..i])
      invariant forall e :: e in index ==>
        index[e] == (if e in s.index then s.index[e] else {}) + (if e in entranceRels[..i] then {name} else {})
    {
      assert entranceRels[..i + 1] == entranceRels[..i] + [entranceRels[i]];
      var e := entranceRels[i];
      entrances := entrances + {e};
      index := index[e := (if e in index then index[e] else {}) + {name}];
    }
    assert entranceRels[..|entranceRels|] == entranceRels;
  }

  method VisitStack(s: Scan, u: Unit, ignore: set<Path>) returns (s': Scan)
    requires !s.Bad?
    ensures s' == Visited(s, u, ignore)
  {
    var focusPaths, isDownstream := DropFocus(s.focus, u.stack.dir, ignore);
    if isDownstream {
      return Scan(focusPaths, s.entrances, s.index, s.down + {u.name});
    }
    if u.stack.settings.Invalid? {
      return Bad;
    }
    var entranceRels;
    entranceRels, isDownstream := CollectEntrances(u.stack.settings.files, focusPaths, ignore);
    if isDownstream {
      return Scan(focusPaths, s.entrances, s.index, s.down + {u.name});
    }
    var entrances, index := IndexEntrances(s, entranceRels, u.name);
    s' := Scan(focusPaths, entrances, index, s.down);
  }

  /** The stacks of one project, after those of the projects before it. */
  method VisitProject(s: Scan, project: Project, projectOnly: bool, ignore: set<Path>, ghost before: seq<Unit>,
                      ghost focus: set<Path>)
    returns (s': Scan)
    requires !s.Bad? && s == ScanAll(before, focus, ignore)
    ensures s' == ScanAll(before + StacksOf(project, projectOnly), focus, ignore)
  {
    s' := s;
    ghost var own := StacksOf(project, projectOnly);
    assert before + own[..0] == before;
    for j := 0 to |project.stacks|
      invariant !s'.Bad? && s' == ScanAll(before + own[..j], focus, ignore)
    {
      ScanNext(before, own, j, focus, ignore);
      s' := VisitStack(s', UnitOf(project, project.stacks[j], projectOnly), ignore);
      if s'.Bad? {
        BadAtStack(before, own, j, focus, ignore);
        return;
      }
    }
    assert own[..|project.stacks|] == own;
  }

  /** The files among entrances that depend on one of the upstreams: what ListDownStreamFiles is for. */
  function DownStreamFiles(entrances: set<Path>, upstreams: set<Path>, depends: (Path, Path) -> bool): set<Path> {
    set e, u | e in entrances && u in upstreams && depends(e, u) :: e
  }

  function NamesOf(index: map<Path, set<Path>>, files: set<Path>): set<Path> {
    set f, name | f in files && f in index && name in index[f] :: name
  }

  /** The names the search reports. */
  function Found(s: Scan, depends: (Path, Path) -> bool): set<Path>
    requires !s.Bad?
  {
    s.down + NamesOf(s.index, DownStreamFiles(s.entrances, s.focus, depends))
  }

  method FindDownStreams(projects: seq<Project>, focus: set<Path>, ignore: set<Path>, projectOnly: bool,
                         depends: (Path, Path) -> bool)
    returns (ok: bool, downStreams: set<Path>)
    ensures var s := ScanAll(UnitsOf(projects, projectOnly), focus, ignore);
      && (ok <==> !s.Bad?)
      && (ok ==> downStreams == Found(s, depends))
  {
    var s := Scan(focus, {}, map[], {});
    for i := 0 to |projects|
      invariant !s.Bad? && s == ScanAll(UnitsOf(projects[..i], projectOnly), focus, ignore)
    {
      assert projects[..i + 1][..i] == projects[..i];
      s := VisitProject(s, projects[i], projectOnly, ignore, UnitsOf(projects[..i], projectOnly), focus);
      if s.Bad? {
        BadInProject(projects, i, projectOnly, focus, ignore);
        return false, {};
      }
    }
    assert projects[..|projects|] == projects;
    downStreams := AddIndexed(s, DownStreamFiles(s.entrances, s.focus, depends));
    ok := true;
  }

  /** Report the owners of the downstream files. */
  method AddIndexed(s: Scan, downstreamFiles: set<Path>) returns (downStreams: set<Path>)
    requires !s.Bad?
    ensures downStreams == s.down + NamesOf(s.index, downstreamFiles)
  {
    downStreams := s.down;
    var rest := downstreamFiles;
    while rest != {}
      invariant rest <= downstreamFiles
      invariant downStreams == s.down + NamesOf(s.index, downstreamFiles - rest)
    {
      var file :| file in rest;
      ghost var done := downstreamFiles - rest;
      assert downstreamFiles - (rest - {file}) == done + {file};
      if file in s.index {
        downStreams := downStreams + s.index[file];
        assert NamesOf(s.index, done + {file}) == NamesOf(s.index, done) + s.index[file];
      } else {
        assert NamesOf(s.index, done + {file}) == NamesOf(s.index, done);
      }
      rest := rest - {file};
    }
    assert downstreamFiles - rest == downstreamFiles;
  }

  lemma ScanNext(before: seq<Unit>, own: seq<Unit>, j: nat, focus: set<Path>, ignore: set<Path>)
    requires j < |own|
    ensures ScanAll(before + own[..j + 1], focus, ignore)
      == Visited(ScanAll(before + own[..j], focus, ignore), own[j], ignore)
  {
    var visited := before + own[..j + 1];
    assert visited[..|visited| - 1] == before + own[..j];
    assert visited[|visited| - 1] == own[j];
  }

  lemma BadAtStack(before: seq<Unit>, own: seq<Unit>, j: nat, focus: set<Path>, ignore: set<Path>)
    requires j < |own| && ScanAll(before + own[..j + 1], focus, ignore).Bad?
    ensures ScanAll(before + own, focus, ignore).Bad?
  {
    BadStays(before + own[..j + 1], own[j + 1..], focus, ignore);
    assert before + own[..j + 1] + own[j + 1..] == before + own;
  }

  lemma {:induction false} BadStays(units: seq<Unit>, more: seq<Unit>, focus: set<Path>, ignore: set<Path>)
    requires ScanAll(units, focus, ignore).Bad?
    ensures ScanAll(units + more, focus, ignore).Bad?
  {
    if more != [] {
      BadStays(units, more[..|more| - 1], focus, ignore);
      assert (units + more)[..|units + more| - 1] == units + more[..|more| - 1];
    } else {
      assert units + more == units;
    }
  }

  lemma {:induction false} BadInProject(projects: seq<Project>, i: nat, projectOnly: bool, focus: set<Path>,
                                        ignore: set<Path>)
    requires i < |projects| && ScanAll(UnitsOf(projects[..i + 1], projectOnly), focus, ignore).Bad?
    ensures ScanAll(UnitsOf(projects, projectOnly), focus, ignore).Bad?
  {
    if i + 1 == |projects| {
      assert projects[..i + 1] == projects;
    } else {
      var front := projects[..|projects| - 1];
      assert front[..i + 1] == projects[..i + 1];
      BadInProject(front, i, projectOnly, focus, ignore);
      var last := projects[|projects| - 1];
      BadStays(UnitsOf(front, projectOnly), StacksOf(last, projectOnly), focus, ignore);
    }
  }

  // ---- What the search finds ----

  /** No stack among the first n has f in its directory. */
  ghost predicate Survives(units: seq<Unit>, n: nat, f: Path)
    requires n <= |units|
  {
    forall i :: 0 <= i < n ==> !IsUnder(f, units[i].stack.dir)
  }

  /** Stack i is reported when it is visited, because of f. */
  ghost predicate MarksNow(units: seq<Unit>, i: nat, f: Path, ignore: set<Path>)
    requires i < |units|
  {
    Survives(units, i, f) && (IsUnder(f, units[i].stack.dir) || f in Relevant(units[i].stack, ignore))
  }

  ghost predicate MarkedNow(units: seq<Unit>, i: nat, focus: set<Path>, ignore: set<Path>)
    requires i < |units|
  {
    exists f :: f in focus && MarksNow(units, i, f, ignore)
  }

  /** Stack i has to load its settings and cannot. */
  ghost predicate Stops(units: seq<Unit>, i: nat, focus: set<Path>, ignore: set<Path>)
    requires i < |units|
  {
    units[i].stack.settings.Invalid? && !MarkedNow(units, i, focus, ignore)
  }

  ghost predicate Indexes(units: seq<Unit>, i: nat, e: Path, name: Path, focus: set<Path>, ignore: set<Path>)
    requires i < |units|
  {
    units[i].name == name && !MarkedNow(units, i, focus, ignore) && e in Relevant(units[i].stack, ignore)
  }

  /** The variables of the search after all units, in closed form. */
  ghost predicate IsScanOf(units: seq<Unit>, focus: set<Path>, ignore: set<Path>, s: Scan)
    requires !s.Bad?
  {
    && (forall f :: f in s.focus <==> f in focus && Survives(units, |units|, f))
    && (forall name :: name in s.down
         <==> exists i :: 0 <= i < |units| && units[i].name == name && MarkedNow(units, i, focus, ignore))
    && s.index.Keys == s.entrances
    && (forall e, name :: Owns(s.index, e, name)
         <==> exists i :: 0 <= i < |units| && Indexes(units, i, e, name, focus, ignore))
  }

  ghost predicate Owns(index: map<Path, set<Path>>, e: Path, name: Path) {
    e in index && name in index[e]
  }

  lemma FrontAlike(units: seq<Unit>, u: Unit, focus: set<Path>, ignore: set<Path>)
    ensures forall i, f :: 0 <= i <= |units| ==> Survives(units + [u], i, f) == Survives(units, i, f)
    ensures forall i :: 0 <= i < |units| ==>
      MarkedNow(units + [u], i, focus, ignore) == MarkedNow(units, i, focus, ignore)
  {
    forall i, f | 0 <= i <= |units| ensures Survives(units + [u], i, f) == Survives(units, i, f) {
      assert forall k :: 0 <= k < i ==> (units + [u])[k] == units[k];
    }
    forall i | 0 <= i < |units| ensures MarkedNow(units + [u], i, focus, ignore) == MarkedNow(units, i, focus, ignore) {
      assert forall f :: MarksNow(units + [u], i, f, ignore) == MarksNow(units, i, f, ignore);
    }
  }

  /** Visiting a stack reports it exactly when a file that is still in focus is under it or is one of its entrances. */
  lemma VisitMeans(s: Scan, u: Unit, ignore: set<Path>)
    requires !s.Bad? && s.focus !! ignore
    ensures var marked := exists f :: f in s.focus && (IsUnder(f, u.stack.dir) || f in Relevant(u.stack, ignore));
      var focus := s.focus - (set f | f in s.focus && IsUnder(f, u.stack.dir));
      Visited(s, u, ignore) ==
        if marked then Scan(focus, s.entrances, s.index, s.down + {u.name})
        else if u.stack.settings.Invalid? then Bad
        else
          var files := Relevant(u.stack, ignore);
          Scan(focus, s.entrances + files, AddAll(s.index, files, u.name), s.down)
  {
    var under := set f | f in s.focus && IsUnder(f, u.stack.dir);
    var relevant := Relevant(u.stack, ignore);
    if f :| f in s.focus && (IsUnder(f, u.stack.dir) || f in relevant) {
      assert f in under || f in relevant * (s.focus - under);
    }
  }

  lemma LastAlike(front: seq<Unit>, u: Unit, s: Scan, focus: set<Path>, ignore: set<Path>)
    requires !s.Bad? && IsScanOf(front, focus, ignore, s)
    ensures MarkedNow(front + [u], |front|, focus, ignore)
      <==> exists f :: f in s.focus && (IsUnder(f, u.stack.dir) || f in Relevant(u.stack, ignore))
    ensures forall f :: Survives(front + [u], |front| + 1, f) <==>
      Survives(front, |front|, f) && !IsUnder(f, u.stack.dir)
  {
    var units := front + [u];
    FrontAlike(front, u, focus, ignore);
    assert forall f :: f in focus ==>
      (MarksNow(units, |front|, f, ignore) <==>
        f in s.focus && (IsUnder(f, u.stack.dir) || f in Relevant(u.stack, ignore)));
    forall f ensures Survives(units, |front| + 1, f) <==> Survives(units, |front|, f) && !IsUnder(f, u.stack.dir) {
      assert units[|front|] == u;
    }
  }

  lemma StepMeans(front: seq<Unit>, u: Unit, s: Scan, focus: set<Path>, ignore: set<Path>)
    requires focus !! ignore && !s.Bad? && IsScanOf(front, focus, ignore, s)
    ensures Visited(s, u, ignore).Bad? <==> Stops(front + [u], |front|, focus, ignore)
    ensures !Visited(s, u, ignore).Bad? ==> IsScanOf(front + [u], focus, ignore, Visited(s, u, ignore))
  {
    var units, n := front + [u], |front|;
    VisitMeans(s, u, ignore);
    LastAlike(front, u, s, focus, ignore);
    FrontAlike(front, u, focus, ignore);
    var s' := Visited(s, u, ignore);
    if s'.Bad? {
      return;
    }
    forall name ensures name in s'.down
      <==> exists i :: 0 <= i < |units| && units[i].name == name && MarkedNow(units, i, focus, ignore) {
      assert name in s.down <==> exists i :: 0 <= i < n && units[i].name == name && MarkedNow(units, i, focus, ignore);
      assert name == u.name && MarkedNow(units, n, focus, ignore) ==> units[n].name == name;
    }
    forall e, name
      ensures Owns(s'.index, e, name) <==> exists i :: 0 <= i < |units| && Indexes(units, i, e, name, focus, ignore)
    {
      OwnsNext(front, u, s, e, name, focus, ignore);
    }
  }

  lemma OwnsNext(front: seq<Unit>, u: Unit, s: Scan, e: Path, name: Path, focus: set<Path>, ignore: set<Path>)
    requires focus !! ignore && !s.Bad? && IsScanOf(front, focus, ignore, s)
    requires !Visited(s, u, ignore).Bad?
    ensures Owns(Visited(s, u, ignore).index, e, name)
      <==> exists i :: 0 <= i < |front| + 1 && Indexes(front + [u], i, e, name, focus, ignore)
  {
    var units, n := front + [u], |front|;
    VisitMeans(s, u, ignore);
    LastAlike(front, u, s, focus, ignore);
    FrontAlike(front, u, focus, ignore);
    assert Owns(Visited(s, u, ignore).index, e, name)
      <==> Owns(s.index, e, name) || Indexes(units, n, e, name, focus, ignore);
    forall i | 0 <= i < n
      ensures Indexes(units, i, e, name, focus, ignore) == Indexes(front, i, e, name, focus, ignore)
    {
    }
    if Owns(s.index, e, name) {
      var i :| 0 <= i < n && Indexes(front, i, e, name, focus, ignore);
      assert Indexes(units, i, e, name, focus, ignore);
    }
  }

  /** The loop over the stacks fails exactly at a stack it has to load and cannot, and else computes the closed form. */
  lemma {:induction false} ScanMeans(units: seq<Unit>, focus: set<Path>, ignore: set<Path>)
    requires focus !! ignore
    ensures var s := ScanAll(units, focus, ignore);
      && (s.Bad? <==> exists i :: 0 <= i < |units| && Stops(units, i, focus, ignore))
      && (!s.Bad? ==> IsScanOf(units, focus, ignore, s))
  {
    if units == [] {
      return;
    }
    var front, u := units[..|units| - 1], units[|units| - 1];
    assert units == front + [u];
    ScanMeans(front, focus, ignore);
    FrontAlike(front, u, focus, ignore);
    var s := ScanAll(front, focus, ignore);
    assert forall i :: 0 <= i < |front| ==> Stops(units, i, focus, ignore) == Stops(front, i, focus, ignore);
    if !s.Bad? {
      StepMeans(front, u, s, focus, ignore);
    }
  }

  /**
   The documented reason for reporting a stack: a focus file is under its directory, is one of its
   entrance files, or is upstream of one.
   */
  ghost predicate Concerns(s: Stack, f: Path, ignore: set<Path>, depends: (Path, Path) -> bool) {
    || IsUnder(f, s.dir)
    || (s.settings.Entrances? && f in s.settings.files && f !in ignore)
    || IsUpstream(s, f, ignore, depends)
  }

  ghost predicate IsUpstream(s: Stack, f: Path, ignore: set<Path>, depends: (Path, Path) -> bool) {
    s.settings.Entrances? && exists e :: e in s.settings.files && e !in ignore && depends(e, f)
  }

  ghost predicate Reports(units: seq<Unit>, i: nat, f: Path, ignore: set<Path>, depends: (Path, Path) -> bool)
    requires i < |units|
  {
    MarksNow(units, i, f, ignore) || (Survives(units, |units|, f) && IsUpstream(units[i].stack, f, ignore, depends))
  }

  /** Some stack reported under this name has a documented reason to be. */
  ghost predicate IsDownStream(units: seq<Unit>, name: Path, focus: set<Path>, ignore: set<Path>,
                               depends: (Path, Path) -> bool) {
    exists i, f ::
      0 <= i < |units| && units[i].name == name && f in focus && Concerns(units[i].stack, f, ignore, depends)
  }

  lemma FoundMeans(units: seq<Unit>, focus: set<Path>, ignore: set<Path>, s: Scan, name: Path,
                   depends: (Path, Path) -> bool)
    requires !s.Bad? && IsScanOf(units, focus, ignore, s)
    ensures name in Found(s, depends)
      <==> exists i, f ::
             0 <= i < |units| && units[i].name == name && f in focus && Reports(units, i, f, ignore, depends)
  {
    if name in Found(s, depends) {
      if name in s.down {
        var i :| 0 <= i < |units| && units[i].name == name && MarkedNow(units, i, focus, ignore);
        var f :| f in focus && MarksNow(units, i, f, ignore);
        assert Reports(units, i, f, ignore, depends);
      } else {
        var e :| e in DownStreamFiles(s.entrances, s.focus, depends) && e in s.index && name in s.index[e];
        var f :| f in s.focus && depends(e, f);
        assert Owns(s.index, e, name);
        var i :| 0 <= i < |units| && Indexes(units, i, e, name, focus, ignore);
        assert Reports(units, i, f, ignore, depends);
      }
    }
    if i, f :| 0 <= i < |units| && units[i].name == name && f in focus && Reports(units, i, f, ignore, depends) {
      if MarksNow(units, i, f, ignore) {
        assert MarkedNow(units, i, focus, ignore);
      } else if !MarkedNow(units, i, focus, ignore) {
        var e :| e in Relevant(units[i].stack, ignore) && depends(e, f);
        assert Indexes(units, i, e, name, focus, ignore);
        assert Owns(s.index, e, name) && f in s.focus;
        assert e in DownStreamFiles(s.entrances, s.focus, depends);
      }
    }
  }

  /** Dropping focus files never adds a name: what is reported always has a documented reason. */
  lemma OnlyDownStreamsAreFound(units: seq<Unit>, focus: set<Path>, ignore: set<Path>, name: Path,
                                depends: (Path, Path) -> bool)
    requires focus !! ignore
    ensures var s := ScanAll(units, focus, ignore);
      !s.Bad? && name in Found(s, depends) ==> IsDownStream(units, name, focus, ignore, depends)
  {
    ScanMeans(units, focus, ignore);
    var s := ScanAll(units, focus, ignore);
    if !s.Bad? && name in Found(s, depends) {
      FoundMeans(units, focus, ignore, s, name, depends);
      var i, f :| 0 <= i < |units| && units[i].name == name && f in focus && Reports(units, i, f, ignore, depends);
      assert Concerns(units[i].stack, f, ignore, depends);
    }
  }

  /**
   When i is the first stack that has f in its directory, stack k still hears of f: it is i, or it
   comes before i and has f among its entrance files.
   */
  ghost predicate Hears(units: seq<Unit>, i: nat, k: nat, f: Path, ignore: set<Path>)
    requires k < |units|
  {
    k == i || (k < i && f in Relevant(units[k].stack, ignore))
  }

  ghost predicate IsFirstOwner(units: seq<Unit>, i: nat, f: Path)
    requires i < |units|
  {
    IsUnder(f, units[i].stack.dir) && Survives(units, i, f)
  }

  /**
   A file in the directory of a stack concerns no other stack, unless a stack of the same name
   hears of it. Stacks that keep to their own directories and to shared ones have this layout.
   */
  ghost predicate Confined(units: seq<Unit>, f: Path, ignore: set<Path>, depends: (Path, Path) -> bool) {
    forall i, j :: 0 <= i < |units| && 0 <= j < |units| && IsFirstOwner(units, i, f)
      && Concerns(units[j].stack, f, ignore, depends)
      ==> exists k :: 0 <= k < |units| && units[k].name == units[j].name && Hears(units, i, k, f, ignore)
  }

  /** The layout the search is documented for: no stack is concerned by a file in the directory of another. */
  lemma SeparateStacksAreConfined(units: seq<Unit>, f: Path, ignore: set<Path>, depends: (Path, Path) -> bool)
    requires forall i, j :: 0 <= i < |units| && 0 <= j < |units| && i != j && IsUnder(f, units[i].stack.dir) ==>
               !Concerns(units[j].stack, f, ignore, depends)
    ensures Confined(units, f, ignore, depends)
  {
    forall i, j | 0 <= i < |units| && 0 <= j < |units| && IsFirstOwner(units, i, f)
      && Concerns(units[j].stack, f, ignore, depends)
      ensures exists k :: 0 <= k < |units| && units[k].name == units[j].name && Hears(units, i, k, f, ignore)
    {
      assert Hears(units, i, j, f, ignore);
    }
  }

  lemma {:induction false} FirstOwnerExists(units: seq<Unit>, n: nat, f: Path) returns (i: nat)
    requires n <= |units| && !Survives(units, n, f)
    ensures i < n && IsFirstOwner(units, i, f)
  {
    if Survives(units, n - 1, f) {
      i := n - 1;
    } else {
      i := FirstOwnerExists(units, n - 1, f);
    }
  }

  /** For one focus file: the search reports a name exactly when some stack of that name hears of the file. */
  lemma ReportsMeans(units: seq<Unit>, i: nat, k: nat, f: Path, ignore: set<Path>, depends: (Path, Path) -> bool)
    requires i < |units| && k < |units| && IsFirstOwner(units, i, f)
    ensures Reports(units, k, f, ignore, depends) <==> Hears(units, i, k, f, ignore)
  {
    assert !Survives(units, |units|, f);
    if i < k {
      assert !Survives(units, k, f);
    }
  }

  lemma ConfinedIsReported(units: seq<Unit>, j: nat, f: Path, ignore: set<Path>, depends: (Path, Path) -> bool)
    returns (k: nat)
    requires j < |units| && Concerns(units[j].stack, f, ignore, depends) && Confined(units, f, ignore, depends)
    ensures k < |units| && units[k].name == units[j].name && Reports(units, k, f, ignore, depends)
  {
    if Survives(units, |units|, f) {
      k := j;
      assert Survives(units, j, f);
    } else {
      var i := FirstOwnerExists(units, |units|, f);
      k :| 0 <= k < |units| && units[k].name == units[j].name && Hears(units, i, k, f, ignore);
      ReportsMeans(units, i, k, f, ignore, depends);
    }
  }

  /** When every focus file is confined, the search finds exactly the documented names. */
  lemma SearchIsComplete(units: seq<Unit>, focus: set<Path>, ignore: set<Path>, name: Path,
                         depends: (Path, Path) -> bool)
    requires focus !! ignore && forall f :: f in focus ==> Confined(units, f, ignore, depends)
    ensures var s := ScanAll(units, focus, ignore);
      !s.Bad? ==> (name in Found(s, depends) <==> IsDownStream(units, name, focus, ignore, depends))
  {
    ScanMeans(units, focus, ignore);
    OnlyDownStreamsAreFound(units, focus, ignore, name, depends);
    var s := ScanAll(units, focus, ignore);
    if !s.Bad? && IsDownStream(units, name, focus, ignore, depends) {
      var j, f :|
        0 <= j < |units| && units[j].name == name && f in focus && Concerns(units[j].stack, f, ignore, depends);
      var k := ConfinedIsReported(units, j, f, ignore, depends);
      FoundMeans(units, focus, ignore, s, name, depends);
    }
  }

  ghost predicate FindsDownStreams(units: seq<Unit>, focus: set<Path>, ignore: set<Path>,
                                   depends: (Path, Path) -> bool) {
    var s := ScanAll(units, focus, ignore);
    !s.Bad? ==> forall name :: name in Found(s, depends) <==> IsDownStream(units, name, focus, ignore, depends)
  }

  /**
   The condition is exact. With settings that load, the search meets its definition for every set
   of focus files if and only if every file that is not ignored is confined; a file that is not
   confined is, alone, a focus for which it misses a stack.
   */
  lemma SearchIsExact(units: seq<Unit>, ignore: set<Path>, depends: (Path, Path) -> bool)
    requires forall i :: 0 <= i < |units| ==> !units[i].stack.settings.Invalid?
    ensures (forall focus :: focus !! ignore ==> FindsDownStreams(units, focus, ignore, depends))
      <==> (forall f :: f !in ignore ==> Confined(units, f, ignore, depends))
  {
    if forall f :: f !in ignore ==> Confined(units, f, ignore, depends) {
      forall focus | focus !! ignore ensures FindsDownStreams(units, focus, ignore, depends) {
        forall name { SearchIsComplete(units, focus, ignore, name, depends); }
      }
    }
    forall f | f !in ignore && !Confined(units, f, ignore, depends)
      ensures !FindsDownStreams(units, {f}, ignore, depends) && {f} !! ignore
    {
      UnconfinedIsMissed(units, f, ignore, depends);
    }
  }

  lemma UnconfinedIsMissed(units: seq<Unit>, f: Path, ignore: set<Path>, depends: (Path, Path) -> bool)
    requires forall i :: 0 <= i < |units| ==> !units[i].stack.settings.Invalid?
    requires f !in ignore && !Confined(units, f, ignore, depends)
    ensures !FindsDownStreams(units, {f}, ignore, depends)
  {
    var i, j :| 0 <= i < |units| && 0 <= j < |units| && IsFirstOwner(units, i, f)
      && Concerns(units[j].stack, f, ignore, depends)
      && !exists k :: 0 <= k < |units| && units[k].name == units[j].name && Hears(units, i, k, f, ignore);
    ScanMeans(units, {f}, ignore);
    var s := ScanAll(units, {f}, ignore);
    FoundMeans(units, {f}, ignore, s, units[j].name, depends);
    forall k | 0 <= k < |units| ensures Reports(units, k, f, ignore, depends) <==> Hears(units, i, k, f, ignore) {
      ReportsMeans(units, i, k, f, ignore, depends);
    }
  }

  // ---- A stack that is missed ----

  function TwoStacks(): seq<Unit> {
    [Unit("a", Stack("a", Entrances(["a/main.k"]))), Unit("b", Stack("b", Entrances(["b/main.k"])))]
  }

  /** The entrance of "b" uses a file of "a". */
  predicate Uses(e: Path, f: Path) {
    e == "b/main.k" && f == "a/lib.k"
  }

  /** When that file changes, "b" is downstream by definition, and the search reports "a" only. */
  lemma CrossDependencyIsMissed()
    ensures IsDownStream(TwoStacks(), "b", {"a/lib.k"}, {}, Uses)
    ensures !FindsDownStreams(TwoStacks(), {"a/lib.k"}, {}, Uses)
    ensures var s := ScanAll(TwoStacks(), {"a/lib.k"}, {}); !s.Bad? && "b" !in Found(s, Uses)
  {
    var units, f, focus := TwoStacks(), "a/lib.k", {"a/lib.k"};
    assert "a" + SEPARATOR == f[..2];
    assert IsFirstOwner(units, 0, f);
    assert "b/main.k" in Relevant(units[1].stack, {}) && Uses("b/main.k", f);
    assert Concerns(units[1].stack, f, {}, Uses);
    forall k | 0 <= k < |units| && units[k].name == "b" ensures !Hears(units, 0, k, f, {}) { assert k == 1; }
    UnconfinedIsMissed(units, f, {}, Uses);
    ScanMeans(units, focus, {});
    FoundMeans(units, focus, {}, ScanAll(units, focus, {}), "b", Uses);
    forall k | 0 <= k < |units| ensures Reports(units, k, f, {}, Uses) <==> Hears(units, 0, k, f, {}) {
      ReportsMeans(units, 0, k, f, {}, Uses);
    }
  }

  // ---- The units are the stacks of the projects ----

  function StacksBefore(projects: seq<Project>, i: nat): nat
    requires i <= |projects|
  {
    if i == 0 then 0 else StacksBefore(projects, i - 1) + |projects[i - 1].stacks|
  }

  lemma {:induction false} StacksBeforeFront(projects: seq<Project>, i: nat)
    requires i < |projects|
    ensures StacksBefore(projects[..|projects| - 1], i) == StacksBefore(projects, i)
  {
    if i > 0 { StacksBeforeFront(projects, i - 1); }
  }

  lemma {:induction false} UnitsCount(projects: seq<Project>, projectOnly: bool)
    ensures |UnitsOf(projects, projectOnly)| == StacksBefore(projects, |projects|)
  {
    if projects != [] {
      UnitsCount(projects[..|projects| - 1], projectOnly);
      StacksBeforeFront(projects, |projects| - 1);
    }
  }

  /** The stacks are visited project by project, and each is reported under its project's directory or its own. */
  lemma {:induction false} UnitAt(projects: seq<Project>, projectOnly: bool, i: nat, j: nat)
    requires i < |projects| && j < |projects[i].stacks|
    ensures var (units, k) := (UnitsOf(projects, projectOnly), StacksBefore(projects, i) + j);
      && k < |units|
      && units[k].stack == projects[i].stacks[j]
      && (projectOnly ==> units[k].name == projects[i].dir)
      && (!projectOnly ==> units[k].name == projects[i].stacks[j].dir)
  {
    var front := projects[..|projects| - 1];
    StacksBeforeFront(projects, i);
    if i < |front| {
      UnitAt(front, projectOnly, i, j);
    } else {
      UnitsCount(front, projectOnly);
    }
  }

  lemma {:induction false} UnitComesFrom(projects: seq<Project>, projectOnly: bool, k: nat) returns (i: nat, j: nat)
    requires k < |UnitsOf(projects, projectOnly)|
    ensures i < |projects| && j < |projects[i].stacks| && k == StacksBefore(projects, i) + j
  {
    var front := projects[..|projects| - 1];
    UnitsCount(front, projectOnly);
    if k < |UnitsOf(front, projectOnly)| {
      i, j := UnitComesFrom(front, projectOnly, k);
      StacksBeforeFront(projects, i);
    } else {
      i := |front|;
      j := k - |UnitsOf(front, projectOnly)|;
      StacksBeforeFront(projects, i);
    }
  }

  /** A name the command may report: that of a project, or stack, with a stack one of the focus files concerns. */
  ghost predicate IsReportable(projects: seq<Project>, projectOnly: bool, name: Path, focus: set<Path>,
                               ignore: set<Path>, depends: (Path, Path) -> bool) {
    exists i, j, f ::
      0 <= i < |projects| && 0 <= j < |projects[i].stacks| && f in focus &&
      name == (if projectOnly then projects[i].dir else projects[i].stacks[j].dir) &&
      Concerns(projects[i].stacks[j], f, ignore, depends)
  }

  lemma ReportableMeans(projects: seq<Project>, projectOnly: bool, name: Path, focus: set<Path>, ignore: set<Path>,
                        depends: (Path, Path) -> bool)
    ensures IsReportable(projects, projectOnly, name, focus, ignore, depends)
      <==> IsDownStream(UnitsOf(projects, projectOnly), name, focus, ignore, depends)
  {
    var units := UnitsOf(projects, projectOnly);
    if IsReportable(projects, projectOnly, name, focus, ignore, depends) {
      var i, j, f :| 0 <= i < |projects| && 0 <= j < |projects[i].stacks| && f in focus
        && name == (if projectOnly then projects[i].dir else projects[i].stacks[j].dir)
        && Concerns(projects[i].stacks[j], f, ignore, depends);
      UnitAt(projects, projectOnly, i, j);
      assert Concerns(units[StacksBefore(projects, i) + j].stack, f, ignore, depends);
    }
    if k, f :| 0 <= k < |units| && units[k].name == name && f in focus && Concerns(units[k].stack, f, ignore, depends) {
      var i, j := UnitComesFrom(projects, projectOnly, k);
      UnitAt(projects, projectOnly, i, j);
      assert Concerns(projects[i].stacks[j], f, ignore, depends);
    }
  }

  /** A file lies in a directory when the directory's path components are its own first ones. */
  lemma UnderMeans(f: Path, dir: Path)
    ensures IsUnder(f, dir) <==> Split(dir, '/') < Split(f, '/')
  {
    if IsUnder(f, dir) {
      var rest := f[|dir| + 1..];
      assert f == dir + ['/'] + rest;
      SplitConcat(dir, rest, '/');
    }
    if Split(dir, '/') < Split(f, '/') {
      var rest := Split(f, '/')[|Split(dir, '/')|..];
      assert Split(f, '/') == Split(dir, '/') + rest;
      JoinConcat(Split(dir, '/'), rest, '/');
      SplitJoin(f, '/');
      SplitJoin(dir, '/');
      assert f == dir + SEPARATOR + Join(rest, '/');
    }
  }

  // ---- The command ----

  /** The focus paths that are not ignored are searched; without any, nothing is read and nothing is reported. */
  method ListDownStreams(focusList: seq<Path>, ignoreList: seq<Path>, projects: seq<Project>, projectOnly: bool,
                         depends: (Path, Path) -> bool)
    returns (ok: bool, downStreams: set<Path>)
    ensures var focus := set f | f in focusList && f !in ignoreList;
      var ignore := set f | f in ignoreList;
      var units := UnitsOf(projects, projectOnly);
      && (ok <==> focus == {} || !exists i :: 0 <= i < |units| && Stops(units, i, focus, ignore))
      && (ok ==>
            forall name :: name in downStreams ==> IsReportable(projects, projectOnly, name, focus, ignore, depends))
      && (ok && (forall f :: f in focus ==> Confined(units, f, ignore, depends)) ==>
            forall name :: name in downStreams <==> IsReportable(projects, projectOnly, name, focus, ignore, depends))
  {
    var ignore := set f | f in ignoreList;
    var focusPaths := set f | f in focusList;
    var rest := ignore;
    while rest != {}
      invariant rest <= ignore
      invariant focusPaths == (set f | f in focusList) - (ignore - rest)
    {
      var f :| f in rest;
      if f in focusPaths {
        focusPaths := focusPaths - {f};
      }
      rest := rest - {f};
    }
    assert focusPaths == set f | f in focusList && f !in ignoreList;
    if focusPaths == {} {
      return true, {};
    }
    ghost var units := UnitsOf(projects, projectOnly);
    ScanMeans(units, focusPaths, ignore);
    ok, downStreams := FindDownStreams(projects, focusPaths, ignore, projectOnly, depends);
    forall name
      ensures ok && name in downStreams ==> IsReportable(projects, projectOnly, name, focusPaths, ignore, depends)
    {
      ReportableMeans(projects, projectOnly, name, focusPaths, ignore, depends);
      OnlyDownStreamsAreFound(units, focusPaths, ignore, name, depends);
    }
    if forall f :: f in focusPaths ==> Confined(units, f, ignore, depends) {
      forall name
        ensures ok ==>
          (name in downStreams <==> IsReportable(projects, projectOnly, name, focusPaths, ignore, depends))
      {
        ReportableMeans(projects, projectOnly, name, focusPaths, ignore, depends);
        SearchIsComplete(units, focusPaths, ignore, name, depends);
      }
    }
  }
}
