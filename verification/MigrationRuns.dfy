/**
 Starts of the migration, each cut off after any number of renames or not at all: what an uninterrupted start
 reaches, and exactly when a start after a cut-off one reaches the same.
 */
module MigrationRuns {
  import opened Wrappers
  import opened Migration

  // ---- A start as a function of what it lists --------------------------------------------------------

  /** `fuel` is how many more writes take effect before the program is cut off. */
  datatype Walk = Walk(disk: Disk, fuel: nat, crashed: bool)

  function Moving(w: Walk, src: Path, dst: Path): Walk {
    var renamed := Rename(w.disk, src, dst);
    if w.crashed || renamed == w.disk then w
    else if w.fuel == 0 then w.(crashed := true)
    else Walk(renamed, w.fuel - 1, false)
  }

  function FlattenOne(w: Walk, name: string): Walk {
    match FlatMove(w.disk, name)
    case None => w
    case Some(target) => Moving(w, [name], target)
  }

  function FlattenAll(w: Walk, names: seq<string>): Walk {
    if names == [] then w else FlattenOne(FlattenAll(w, names[..|names| - 1]), names[|names| - 1])
  }

  /** The chat that a listed meta file names. */
  function ChatOfMeta(disk: Disk, chatOf: string -> Option<string>, name: string): Option<string> {
    var meta := ["artefacts", name];
    if EndsWith(name, ".meta.json") && meta in disk && disk[meta].File? then chatOf(disk[meta].content) else None
  }

  /** Moves what there is; a rename of nothing fails. */
  function FanOutOne(w: Walk, chatOf: string -> Option<string>, name: string): Walk {
    match ChatOfMeta(w.disk, chatOf, name)
    case None => w
    case Some(chat) =>
      var id := TrimEnd(name, ".meta.json");
      Moving(Moving(w, BodyPath(id), [chat, "artefacts", id + ".body"]),
             MetaPath(id), [chat, "artefacts", id + ".meta.json"])
  }

  function FanOutAll(w: Walk, chatOf: string -> Option<string>, names: seq<string>): Walk {
    if names == [] then w
    else FanOutOne(FanOutAll(w, chatOf, names[..|names| - 1]), chatOf, names[|names| - 1])
  }

  predicate Listed(disk: Disk, dir: Path, name: string) {
    exists p | p in disk :: Within(dir, p) && p[|dir|] == name
  }

  /** A directory is listed in any order. */
  ghost predicate Listing(disk: Disk, dir: Path, names: seq<string>) {
    && (forall i, j | 0 <= i < j < |names| :: names[i] != names[j])
    && forall name :: name in names <==> Listed(disk, dir, name)
  }

  /** What one start lists, first the chats directory and later the shared artefacts, and when it is cut off. */
  datatype Course = Course(flat: seq<string>, shared: seq<string>, fuel: nat)

  function Flattened(disk: Disk, course: Course): Walk {
    FlattenAll(Walk(disk, course.fuel, false), course.flat)
  }

  ghost predicate IsCourse(disk: Disk, course: Course) {
    Listing(disk, [], course.flat) && Listing(Flattened(disk, course).disk, ["artefacts"], course.shared)
  }

  datatype Outcome = Migrated | AlreadyCurrent | TooNew | Crashed

  datatype Begun = Begun(disk: Disk, version: Option<nat>, outcome: Outcome)

  function VersionOf(disk: Disk, version: Option<nat>): nat {
    if version.Some? then version.value else DefaultVersion(disk)
  }

  /** One start of the program; writing the new version is its last write. */
  function StartOf(disk: Disk, version: Option<nat>, chatOf: string -> Option<string>, course: Course): Begun {
    if VersionOf(disk, version) > CURRENT_CHATS_VERSION then Begun(disk, version, TooNew)
    else if VersionOf(disk, version) == CURRENT_CHATS_VERSION then Begun(disk, version, AlreadyCurrent)
    else
      var w := FanOutAll(Flattened(disk, course), chatOf, course.shared);
      if w.crashed || w.fuel == 0 then Begun(w.disk, version, Crashed)
      else Begun(w.disk, Some(CURRENT_CHATS_VERSION), Migrated)
  }

  predicate NotCurrent(version: Option<nat>) {
    version.None? || version == Some(0)
  }

  // ---- Where a start gets to ------------------------------------------------------------------------

  /** The entries in `moved`, and only those, are in their places, and bodies left before their meta files. */
  ghost predicate Reached(origin: Disk, chatOf: string -> Option<string>, moved: set<Path>, disk: Disk) {
    Layout(origin, PlanOf(origin, chatOf), moved, disk) && BodiesFirst(origin, moved)
  }

  lemma MoveReaches(origin: Disk, chatOf: string -> Option<string>, moved: set<Path>, w: Walk, p: Path)
    returns (moved': set<Path>)
    requires Ordinary(origin, chatOf) && Reached(origin, chatOf, moved, w.disk)
    requires Moves(origin, chatOf, p) && p !in moved && !w.crashed
    requires forall id | p == MetaPath(id) && BodyPath(id) in origin :: BodyPath(id) in moved
    ensures var w' := Moving(w, p, Dest(origin, chatOf, p));
            && Reached(origin, chatOf, moved', w'.disk)
            && moved' == (if w'.crashed then moved else moved + {p})
            && w'.fuel + |moved'| == w.fuel + |moved|
            && (w'.crashed ==> w'.fuel == 0)
  {
    hide Ordinary, Layout, BodiesFirst, Rename;
    PlanIsSound(origin, chatOf);
    RenameKeepsLayout(origin, PlanOf(origin, chatOf), moved, w.disk, p);
    BodyMoveKeepsOrder(origin, moved, p);
    moved' := if w.fuel == 0 then moved else moved + {p};
  }

  lemma FlattenOneReaches(origin: Disk, chatOf: string -> Option<string>, moved: set<Path>, w: Walk, name: string)
    returns (moved': set<Path>)
    requires Ordinary(origin, chatOf) && Reached(origin, chatOf, moved, w.disk)
    requires !w.crashed && Harmless(origin, chatOf, name)
    ensures var w' := FlattenOne(w, name);
            && Reached(origin, chatOf, moved', w'.disk) && moved <= moved'
            && w'.fuel + |moved'| == w.fuel + |moved|
            && (if w'.crashed then w'.fuel == 0 else FlatDone(origin, chatOf, moved', name))
  {
    hide Ordinary, Layout, BodiesFirst, Rename, FlatMove, Harmless;
    FlatMoveIsCalledFor(origin, chatOf, moved, w.disk, name);
    moved' := moved;
    match FlatMove(w.disk, name)
    case None =>
    case Some(target) =>
      if Rename(w.disk, [name], target) != w.disk {
        NoMetaAtTop(name);
        moved' := MoveReaches(origin, chatOf, moved, w, [name]);
      }
  }

  lemma NoMetaAtTop(name: string)
    ensures forall id :: [name] != MetaPath(id)
  {
    forall id: string
      ensures [name] != MetaPath(id)
    {
      assert |[name]| == 1 && |MetaPath(id)| == 2;
    }
  }

  lemma {:induction false} FlattenAllReaches(
    origin: Disk, chatOf: string -> Option<string>, moved: set<Path>, w: Walk, names: seq<string>)
    returns (moved': set<Path>)
    requires Ordinary(origin, chatOf) && Reached(origin, chatOf, moved, w.disk)
    requires !w.crashed && forall name | name in names :: Harmless(origin, chatOf, name)
    ensures var w' := FlattenAll(w, names);
            && Reached(origin, chatOf, moved', w'.disk) && moved <= moved'
            && w'.fuel + |moved'| == w.fuel + |moved|
            && (if w'.crashed then w'.fuel == 0
                else forall k | 0 <= k < |names| :: FlatDone(origin, chatOf, moved', names[k]))
    decreases |names|
  {
    hide Ordinary, Reached, FlattenOne, Harmless, FlatDone;
    moved' := moved;
    if names != [] {
      var n := |names| - 1;
      moved' := FlattenAllReaches(origin, chatOf, moved, w, names[..n]);
      var middle := FlattenAll(w, names[..n]);
      if middle.crashed {
        CrashedStays(middle, names[n]);
      } else {
        ghost var before := moved';
        moved' := FlattenOneReaches(origin, chatOf, moved', middle, names[n]);
        DoneStaysDone(origin, chatOf, before, moved', names[..n]);
      }
    }
  }

  lemma CrashedStays(w: Walk, name: string)
    ensures w.crashed ==> FlattenOne(w, name) == w
  {
  }

  lemma DoneStaysDone(
    origin: Disk, chatOf: string -> Option<string>, before: set<Path>, moved: set<Path>, names: seq<string>)
    requires before <= moved && forall k | 0 <= k < |names| :: FlatDone(origin, chatOf, before, names[k])
    ensures forall k | 0 <= k < |names| :: FlatDone(origin, chatOf, moved, names[k])
  {
  }

  lemma FanOutOneReaches(origin: Disk, chatOf: string -> Option<string>, moved: set<Path>, w: Walk, name: string)
    returns (moved': set<Path>)
    requires Ordinary(origin, chatOf) && Reached(origin, chatOf, moved, w.disk) && !w.crashed
    ensures var w' := FanOutOne(w, chatOf, name);
            && Reached(origin, chatOf, moved', w'.disk) && moved <= moved'
            && w'.fuel + |moved'| == w.fuel + |moved|
            && (if w'.crashed then w'.fuel == 0 else SharedDone(origin, chatOf, moved', name))
  {
    moved' := moved;
    if EndsWith(name, ".meta.json") {
      MetaMoves(origin, chatOf, moved, w.disk, name);
      if ["artefacts", name] in w.disk {
        ArtefactTargets(origin, chatOf, TrimEnd(name, ".meta.json"));
        if chatOf(w.disk[["artefacts", name]].content).Some? {
          moved' := ArtefactReaches(origin, chatOf, moved, w, TrimEnd(name, ".meta.json"));
        }
      }
    }
  }

  /** The two files of an artefact whose meta file still stands: the body, if there is one, and then the meta file. */
  lemma ArtefactReaches(origin: Disk, chatOf: string -> Option<string>, moved: set<Path>, w: Walk, id: string)
    returns (moved': set<Path>)
    requires Ordinary(origin, chatOf) && Reached(origin, chatOf, moved, w.disk) && !w.crashed
    requires MetaPath(id) in origin && origin[MetaPath(id)].File? && MetaPath(id) !in moved
    requires chatOf(origin[MetaPath(id)].content).Some?
    ensures var chat := chatOf(origin[MetaPath(id)].content).value;
            var w' := Moving(Moving(w, BodyPath(id), [chat, "artefacts", id + ".body"]),
                             MetaPath(id), [chat, "artefacts", id + ".meta.json"]);
            && Reached(origin, chatOf, moved', w'.disk) && moved <= moved'
            && w'.fuel + |moved'| == w.fuel + |moved|
            && (if w'.crashed then w'.fuel == 0 else MetaPath(id) in moved')
  {
    hide Ordinary, Layout, BodiesFirst, Moves, Rename;
    var chat := chatOf(origin[MetaPath(id)].content).value;
    ArtefactTargets(origin, chatOf, id);
    BodyStands(origin, chatOf, moved, w.disk, id);
    BodyIsNoMeta(id);
    moved' := moved;
    var after := Moving(w, BodyPath(id), [chat, "artefacts", id + ".body"]);
    if BodyPath(id) in w.disk {
      moved' := MoveReaches(origin, chatOf, moved, w, BodyPath(id));
    } else {
      NothingToRename(origin, chatOf, moved, w.disk, id, [chat, "artefacts", id + ".body"]);
    }
    hide Reached;
    if !after.crashed {
      moved' := MoveReaches(origin, chatOf, moved', after, MetaPath(id));
    }
  }

  lemma NothingToRename(
    origin: Disk, chatOf: string -> Option<string>, moved: set<Path>, disk: Disk, id: string, dst: Path)
    requires Ordinary(origin, chatOf) && Layout(origin, PlanOf(origin, chatOf), moved, disk) && BodyPath(id) !in disk
    ensures Rename(disk, BodyPath(id), dst) == disk
  {
    hide Layout, Ordinary;
    forall q | q in disk
      ensures !Within(BodyPath(id), q)
    {
      if Within(BodyPath(id), q) {
        BodiesAreFiles(origin, chatOf, moved, disk, id, q);
      }
    }
  }

  lemma BodiesAreFiles(
    origin: Disk, chatOf: string -> Option<string>, moved: set<Path>, disk: Disk, id: string, q: Path)
    requires Ordinary(origin, chatOf) && Layout(origin, PlanOf(origin, chatOf), moved, disk)
    requires q in disk && AtOrBelow(BodyPath(id), q)
    ensures q == BodyPath(id)
  {
    hide Target, Moves, PlainChat, Free;
    assert q[..2] == ["artefacts", id + ".body"];
    assert q[0] == q[..2][0] && q[1] == q[..2][1];
    assert EndsWith(q[1], ".body");
    Unmoved(origin, chatOf, moved, disk, q);
    assert |q| == 2;
    assert q[..2] == q;
  }

  lemma {:induction false} FanOutAllReaches(
    origin: Disk, chatOf: string -> Option<string>, moved: set<Path>, w: Walk, names: seq<string>)
    returns (moved': set<Path>)
    requires Ordinary(origin, chatOf) && Reached(origin, chatOf, moved, w.disk) && !w.crashed
    ensures var w' := FanOutAll(w, chatOf, names);
            && Reached(origin, chatOf, moved', w'.disk) && moved <= moved'
            && w'.fuel + |moved'| == w.fuel + |moved|
            && (if w'.crashed then w'.fuel == 0
                else forall k | 0 <= k < |names| :: SharedDone(origin, chatOf, moved', names[k]))
    decreases |names|
  {
    hide Ordinary, Reached, FanOutOne, SharedDone;
    moved' := moved;
    if names != [] {
      var n := |names| - 1;
      moved' := FanOutAllReaches(origin, chatOf, moved, w, names[..n]);
      var middle := FanOutAll(w, chatOf, names[..n]);
      if middle.crashed {
        CrashedStaysHere(middle, chatOf, names[n]);
      } else {
        ghost var before := moved';
        moved' := FanOutOneReaches(origin, chatOf, moved', middle, names[n]);
        SharedStaysDone(origin, chatOf, before, moved', names[..n]);
      }
    }
  }

  lemma CrashedStaysHere(w: Walk, chatOf: string -> Option<string>, name: string)
    ensures w.crashed ==> FanOutOne(w, chatOf, name) == w
  {
  }

  lemma {:induction false} AllCrashedStays(w: Walk, chatOf: string -> Option<string>, names: seq<string>)
    requires w.crashed
    ensures FanOutAll(w, chatOf, names) == w
    decreases |names|
  {
    if names != [] {
      AllCrashedStays(w, chatOf, names[..|names| - 1]);
      CrashedStaysHere(w, chatOf, names[|names| - 1]);
    }
  }

  lemma SharedStaysDone(
    origin: Disk, chatOf: string -> Option<string>, before: set<Path>, moved: set<Path>, names: seq<string>)
    requires before <= moved && forall k | 0 <= k < |names| :: SharedDone(origin, chatOf, before, names[k])
    ensures forall k | 0 <= k < |names| :: SharedDone(origin, chatOf, moved, names[k])
  {
  }

  lemma FlatListing(origin: Disk, chatOf: string -> Option<string>, moved: set<Path>, disk: Disk, names: seq<string>)
    requires Reached(origin, chatOf, moved, disk) && Listing(disk, [], names)
    ensures FlatListed(origin, chatOf, moved, names)
  {
    forall p | p in disk && Within([], p)
      ensures p[0] in names
    {
      assert Listed(disk, [], p[0]);
    }
    FlatNamesAreListed(origin, chatOf, moved, disk, names);
  }

  lemma SharedListing(origin: Disk, chatOf: string -> Option<string>, moved: set<Path>, disk: Disk, names: seq<string>)
    requires Reached(origin, chatOf, moved, disk) && Listing(disk, ["artefacts"], names)
    ensures SharedListed(origin, chatOf, moved, names)
  {
    forall p | p in disk && Within(["artefacts"], p)
      ensures p[1] in names
    {
      assert Listed(disk, ["artefacts"], p[1]);
    }
    SharedNamesAreListed(origin, chatOf, moved, disk, names);
  }

  /**
   One start, from the old layout or from what an earlier start left: it finds nothing to do, or is cut off with
   the version unchanged, or leaves everything in its place.
   */
  lemma StartReaches(origin: Disk, chatOf: string -> Option<string>, moved: set<Path>, disk: Disk,
                     version: Option<nat>, course: Course) returns (moved': set<Path>)
    requires Ordinary(origin, chatOf) && Reached(origin, chatOf, moved, disk) && IsCourse(disk, course)
    requires forall name | name in course.flat :: Harmless(origin, chatOf, name)
    ensures var begun := StartOf(disk, version, chatOf, course);
            && Reached(origin, chatOf, moved', begun.disk) && moved <= moved' <= Movable(origin, chatOf)
            && (begun.version == if begun.outcome.Migrated? then Some(CURRENT_CHATS_VERSION) else version)
            && (begun.outcome.TooNew? || begun.outcome.AlreadyCurrent? ==> begun.disk == disk && moved' == moved)
            && (begun.outcome.Migrated? || (begun.outcome.AlreadyCurrent? && version.None?) ==>
                  moved' == Movable(origin, chatOf))
            && (begun.outcome.Crashed? ==> |moved'| == |moved| + course.fuel)
  {
    hide Ordinary, Layout, BodiesFirst, FlattenAll, FanOutAll, Harmless, Listing, Moves, Movable, FlatListed,
      SharedListed, DefaultVersion;
    moved' := moved;
    MovedWithinMovable(origin, chatOf, moved, disk);
    if VersionOf(disk, version) == CURRENT_CHATS_VERSION {
      CurrentMeansDone(origin, chatOf, moved, disk);
    } else if VersionOf(disk, version) < CURRENT_CHATS_VERSION {
      moved' := WalkReaches(origin, chatOf, moved, disk, course);
    }
  }

  lemma WalkReaches(origin: Disk, chatOf: string -> Option<string>, moved: set<Path>, disk: Disk, course: Course)
    returns (moved': set<Path>)
    requires Ordinary(origin, chatOf) && Reached(origin, chatOf, moved, disk) && IsCourse(disk, course)
    requires forall name | name in course.flat :: Harmless(origin, chatOf, name)
    ensures var w := FanOutAll(Flattened(disk, course), chatOf, course.shared);
            && Reached(origin, chatOf, moved', w.disk) && moved <= moved' <= Movable(origin, chatOf)
            && w.fuel + |moved'| == course.fuel + |moved|
            && (if w.crashed then w.fuel == 0 else moved' == Movable(origin, chatOf))
  {
    hide Ordinary, Layout, BodiesFirst, FlattenAll, FanOutAll, Harmless, Listing, Moves, Movable, FlatListed,
      SharedListed, FlatDone, SharedDone;
    var flattened := Flattened(disk, course);
    ghost var middle := FlattenAllReaches(origin, chatOf, moved, Walk(disk, course.fuel, false), course.flat);
    moved' := middle;
    if flattened.crashed {
      AllCrashedStays(flattened, chatOf, course.shared);
    } else {
      FlatListing(origin, chatOf, moved, disk, course.flat);
      AllFlatMoved(origin, chatOf, moved, middle, course.flat);
      moved' := FanOutAllReaches(origin, chatOf, middle, flattened, course.shared);
      SharedListing(origin, chatOf, middle, flattened.disk, course.shared);
      if !FanOutAll(flattened, chatOf, course.shared).crashed {
        AllSharedMoved(origin, chatOf, middle, moved', course.shared);
        assert forall p | Moves(origin, chatOf, p) && |p| == 1 :: p in moved';
      }
    }
    MovedWithinMovable(origin, chatOf, moved', FanOutAll(flattened, chatOf, course.shared).disk);
  }

  // ---- The uninterrupted start ----------------------------------------------------------------------

  /** No chat that something goes to is listed before anything went there. */
  lemma OriginIsHarmless(origin: Disk, chatOf: string -> Option<string>, names: seq<string>)
    requires Ordinary(origin, chatOf) && Listing(origin, [], names)
    ensures forall name | name in names :: Harmless(origin, chatOf, name)
  {
    forall name, p | name in names && Swallows(origin, chatOf, p)
      ensures Dest(origin, chatOf, p)[0] != name
    {
      assert Listed(origin, [], name);
      var q :| q in origin && Within([], q) && q[0] == name;
      ChatIsNotThere(origin, chatOf, p, q);
    }
  }

  lemma ChatIsNotThere(origin: Disk, chatOf: string -> Option<string>, p: Path, q: Path)
    requires Ordinary(origin, chatOf) && Swallows(origin, chatOf, p) && q in origin && |q| > 0
    ensures q[0] != Dest(origin, chatOf, p)[0]
  {
    hide Target, FlatTarget, SharedTarget, StaysFree, PlainChat;
    PlaceIsPlain(origin, chatOf, p);
    if |q| == 1 {
      OneIsAbove(q, Dest(origin, chatOf, p));
    }
  }

  lemma OneIsAbove(q: Path, dest: Path)
    requires |q| == 1 < |dest|
    ensures q[0] == dest[0] ==> Within(q, dest)
  {
  }

  lemma ReachedIsLayout(origin: Disk, chatOf: string -> Option<string>, moved: set<Path>, disk: Disk)
    requires Reached(origin, chatOf, moved, disk)
    ensures Layout(origin, PlanOf(origin, chatOf), moved, disk)
  {
  }

  lemma NothingMoved(origin: Disk, chatOf: string -> Option<string>)
    ensures Reached(origin, chatOf, {}, origin)
  {
  }

  /** A start of the old layout that is not cut off puts everything in its place. */
  lemma UninterruptedReachesLayout(
    origin: Disk, chatOf: string -> Option<string>, version: Option<nat>, course: Course)
    requires Ordinary(origin, chatOf) && IsCourse(origin, course) && NotCurrent(version)
    ensures var begun := StartOf(origin, version, chatOf, course);
            if begun.outcome.Crashed? then course.fuel <= |Movable(origin, chatOf)|
            else Layout(origin, PlanOf(origin, chatOf), Movable(origin, chatOf), begun.disk)
  {
    hide Ordinary, Reached, BodiesFirst, Harmless, Listing, Movable, FlattenAll, FanOutAll, DefaultVersion;
    NothingMoved(origin, chatOf);
    OriginIsHarmless(origin, chatOf, course.flat);
    var moved := StartReaches(origin, chatOf, {}, origin, version, course);
    SubsetIsNoLarger(moved, Movable(origin, chatOf));
    ReachedIsLayout(origin, chatOf, moved, StartOf(origin, version, chatOf, course).disk);
  }

  // ---- A cut-off start and another one --------------------------------------------------------------

  /** The first start is cut off, the second is not, and this is what they leave. */
  ghost predicate IsRerun(origin: Disk, chatOf: string -> Option<string>, version: Option<nat>,
                          first: Course, second: Course, final: Disk)
  {
    && IsCourse(origin, first)
    && var cut := StartOf(origin, version, chatOf, first);
       && cut.outcome.Crashed? && IsCourse(cut.disk, second)
       && !StartOf(cut.disk, cut.version, chatOf, second).outcome.Crashed?
       && final == StartOf(cut.disk, cut.version, chatOf, second).disk
  }

  /** However the first start is cut off, the second one reaches what an uninterrupted start reaches. */
  ghost predicate SurvivesCrash(origin: Disk, chatOf: string -> Option<string>, version: Option<nat>) {
    forall first, second, final | IsRerun(origin, chatOf, version, first, second, final) ::
      Layout(origin, PlanOf(origin, chatOf), Movable(origin, chatOf), final)
  }

  /** Something goes to a chat whose id ends in `_media`, and nothing that stays keeps its media place. */
  ghost predicate Swallowed(origin: Disk, chatOf: string -> Option<string>) {
    exists p :: Swallows(origin, chatOf, p)
  }

  lemma AllHarmless(origin: Disk, chatOf: string -> Option<string>, names: seq<string>)
    requires !Swallowed(origin, chatOf)
    ensures forall name | name in names :: Harmless(origin, chatOf, name)
  {
  }

  lemma RerunReachesLayout(origin: Disk, chatOf: string -> Option<string>, version: Option<nat>,
                           first: Course, second: Course, final: Disk)
    requires Ordinary(origin, chatOf) && NotCurrent(version) && !Swallowed(origin, chatOf)
    requires IsRerun(origin, chatOf, version, first, second, final)
    ensures Layout(origin, PlanOf(origin, chatOf), Movable(origin, chatOf), final)
  {
    hide Ordinary, Reached, BodiesFirst, Harmless, Swallowed, Listing, Movable, FlattenAll, FanOutAll, DefaultVersion;
    NothingMoved(origin, chatOf);
    AllHarmless(origin, chatOf, first.flat);
    AllHarmless(origin, chatOf, second.flat);
    var cut := StartOf(origin, version, chatOf, first);
    var moved := StartReaches(origin, chatOf, {}, origin, version, first);
    moved := StartReaches(origin, chatOf, moved, cut.disk, cut.version, second);
    ReachedIsLayout(origin, chatOf, moved, final);
  }

  /** Every directory can be listed. */
  lemma ListingOf(disk: Disk, dir: Path) returns (names: seq<string>)
    ensures Listing(disk, dir, names)
  {
    var listed := set p | p in disk && Within(dir, p) :: p[|dir|];
    assert forall name :: name in listed <==> Listed(disk, dir, name);
    names := InSomeOrder(listed);
  }

  lemma InSomeOrder(names: set<string>) returns (list: seq<string>)
    ensures forall name :: name in list <==> name in names
    ensures forall i, j | 0 <= i < j < |list| :: list[i] != list[j]
  {
    list := [];
    if names != {} {
      var name :| name in names;
      var rest := InSomeOrder(names - {name});
      list := rest + [name];
    }
  }

  /** A first start that is cut off after its last rename and before it writes the version. */
  lemma CutBeforeVersion(origin: Disk, chatOf: string -> Option<string>, version: Option<nat>, p: Path)
    returns (first: Course)
    requires Ordinary(origin, chatOf) && NotCurrent(version) && Moves(origin, chatOf, p)
    ensures IsCourse(origin, first)
    ensures var cut := StartOf(origin, version, chatOf, first);
            && cut.outcome.Crashed? && cut.version == version
            && Reached(origin, chatOf, Movable(origin, chatOf), cut.disk)
  {
    hide Ordinary, Reached, BodiesFirst, Harmless, Listing, Movable, FlattenAll, FanOutAll, Moves, DefaultVersion;
    var flat := ListingOf(origin, []);
    var fuel := |Movable(origin, chatOf)|;
    var shared := ListingOf(FlattenAll(Walk(origin, fuel, false), flat).disk, ["artefacts"]);
    first := Course(flat, shared, fuel);
    NothingMoved(origin, chatOf);
    OriginIsHarmless(origin, chatOf, flat);
    WorkKeepsVersionZero(origin, chatOf, p);
    var moved := WalkReaches(origin, chatOf, {}, origin, first);
    FullSubset(moved, Movable(origin, chatOf));
  }

  lemma FullSubset<T>(a: set<T>, b: set<T>)
    requires a <= b && |a| >= |b|
    ensures a == b
  {
    SubsetIsNoLarger(a, b);
    assert b == a + (b - a) && |b| == |a| + |b - a|;
  }

  // ---- The program ----------------------------------------------------------------------------------

  class ChatsDir {
    const chatOf: string -> Option<string>
    var disk: Disk
    var version: Option<nat>

    constructor (disk: Disk, version: Option<nat>, chatOf: string -> Option<string>)
      ensures this.disk == disk && this.version == version && this.chatOf == chatOf
    {
      this.disk, this.version, this.chatOf := disk, version, chatOf;
    }

    method ReadDir(dir: Path) returns (names: seq<string>)
      ensures Listing(disk, dir, names)
    {
      names := [];
      var left := disk.Keys;
      while left != {}
        invariant left <= disk.Keys
        invariant forall i, j | 0 <= i < j < |names| :: names[i] != names[j]
        invariant forall name :: name in names <==>
                    exists p :: p in disk && p !in left && Within(dir, p) && p[|dir|] == name
        decreases |left|
      {
        var p :| p in left;
        if Within(dir, p) && p[|dir|] !in names {
          names := names + [p[|dir|]];
        }
        left := left - {p};
      }
    }

    /** One rename, unless the start is cut off first. */
    method MovePath(src: Path, dst: Path, fuel: nat) returns (left: nat, crashed: bool)
      modifies this`disk
      ensures Walk(disk, left, crashed) == Moving(Walk(old(disk), fuel, false), src, dst)
    {
      var renamed := Rename(disk, src, dst);
      if renamed == disk {
        return fuel, false;
      }
      if fuel == 0 {
        return 0, true;
      }
      disk := renamed;
      return fuel - 1, false;
    }

    method FlattenToPerChatDirs(fuel: nat) returns (left: nat, crashed: bool, ghost names: seq<string>)
      modifies this`disk
      ensures Listing(old(disk), [], names)
      ensures Walk(disk, left, crashed) == FlattenAll(Walk(old(disk), fuel, false), names)
    {
      hide Listing, Rename;
      var entries := ReadDir([]);
      names := entries;
      left, crashed := fuel, false;
      ghost var start := Walk(disk, fuel, false);
      for i := 0 to |entries|
        invariant Walk(disk, left, crashed) == FlattenAll(start, entries[..i])
        invariant !crashed
      {
        assert entries[..i + 1][..i] == entries[..i];
        match FlatMove(disk, entries[i]) {
          case None =>
          case Some(target) => left, crashed := MovePath([entries[i]], target, left);
        }
        if crashed {
          FlattenStopped(start, entries, i + 1);
          return;
        }
      }
      assert entries[..|entries|] == entries;
    }

    method FanOutSharedArtefacts(fuel: nat) returns (left: nat, crashed: bool, ghost names: seq<string>)
      modifies this`disk
      ensures Listing(old(disk), ["artefacts"], names)
      ensures Walk(disk, left, crashed) == FanOutAll(Walk(old(disk), fuel, false), chatOf, names)
    {
      hide Listing, Rename;
      var entries := ReadDir(["artefacts"]);
      names := entries;
      left, crashed := fuel, false;
      ghost var start := Walk(disk, fuel, false);
      for i := 0 to |entries|
        invariant Walk(disk, left, crashed) == FanOutAll(start, chatOf, entries[..i])
        invariant !crashed
      {
        assert entries[..i + 1][..i] == entries[..i];
        left, crashed := FanOutEntry(entries[i], left);
        if crashed {
          FanOutStopped(start, chatOf, entries, i + 1);
          return;
        }
      }
      assert entries[..|entries|] == entries;
    }

    method FanOutEntry(name: string, fuel: nat) returns (left: nat, crashed: bool)
      modifies this`disk
      ensures Walk(disk, left, crashed) == FanOutOne(Walk(old(disk), fuel, false), chatOf, name)
    {
      hide Rename;
      left, crashed := fuel, false;
      if !EndsWith(name, ".meta.json") {
        return;
      }
      var id := TrimEnd(name, ".meta.json");
      if ["artefacts", name] !in disk || disk[["artefacts", name]].Dir? {
        return;
      }
      var chat := chatOf(disk[["artefacts", name]].content);
      if chat.None? {
        return;
      }
      left, crashed := MovePath(BodyPath(id), [chat.value, "artefacts", id + ".body"], left);
      if crashed {
        return;
      }
      left, crashed := MovePath(MetaPath(id), [chat.value, "artefacts", id + ".meta.json"], left);
    }

    /** One start of the program, cut off after `fuel` writes. */
    method Migrate(fuel: nat) returns (outcome: Outcome, ghost course: Course)
      modifies this
      ensures IsCourse(old(disk), course) && course.fuel == fuel
      ensures Begun(disk, version, outcome) == StartOf(old(disk), old(version), chatOf, course)
    {
      hide Listing, FlattenAll, FanOutAll;
      course := AnyCourse(disk, fuel);
      var current := if version.Some? then version.value else DefaultVersion(disk);
      if current > CURRENT_CHATS_VERSION {
        return TooNew, course;
      }
      if current == CURRENT_CHATS_VERSION {
        return AlreadyCurrent, course;
      }
      ghost var flat, shared;
      var left, crashed;
      left, crashed, flat := FlattenToPerChatDirs(fuel);
      if crashed {
        shared := ListingOf(disk, ["artefacts"]);
        AllCrashedStays(Walk(disk, left, crashed), chatOf, shared);
        return Crashed, Course(flat, shared, fuel);
      }
      left, crashed, shared := FanOutSharedArtefacts(left);
      course := Course(flat, shared, fuel);
      if crashed || left == 0 {
        return Crashed, course;
      }
      version := Some(CURRENT_CHATS_VERSION);
      return Migrated, course;
    }

    /**
     Any number of starts that are cut off anywhere, and one that is not, end in the layout of an uninterrupted
     start, unless a chat can be taken for a media directory.
     */
    method MigrateThroughCrashes(fuels: seq<nat>, enough: nat)
      requires Ordinary(disk, chatOf) && NotCurrent(version) && !Swallowed(disk, chatOf)
      requires enough > |Movable(disk, chatOf)|
      modifies this
      ensures Layout(old(disk), PlanOf(old(disk), chatOf), Movable(old(disk), chatOf), disk)
    {
      hide Ordinary, Reached, BodiesFirst, Harmless, Swallowed, Listing, Movable, FlattenAll, FanOutAll, DefaultVersion;
      ghost var origin, moved := disk, {};
      NothingMoved(origin, chatOf);
      for i := 0 to |fuels|
        invariant Reached(origin, chatOf, moved, disk) && NotCurrent(version)
      {
        ghost var before, was := disk, version;
        var outcome;
        ghost var course;
        outcome, course := Migrate(fuels[i]);
        AllHarmless(origin, chatOf, course.flat);
        moved := StartReaches(origin, chatOf, moved, before, was, course);
        if outcome.Migrated? {
          ReachedIsLayout(origin, chatOf, moved, disk);
          return;
        }
      }
      ghost var before, was := disk, version;
      var outcome;
      ghost var course;
      outcome, course := Migrate(enough);
      AllHarmless(origin, chatOf, course.flat);
      moved := StartReaches(origin, chatOf, moved, before, was, course);
      SubsetIsNoLarger(moved, Movable(origin, chatOf));
      ReachedIsLayout(origin, chatOf, moved, disk);
    }
  }

  lemma AnyCourse(disk: Disk, fuel: nat) returns (course: Course)
    ensures IsCourse(disk, course) && course.fuel == fuel
  {
    var flat := ListingOf(disk, []);
    var shared := ListingOf(FlattenAll(Walk(disk, fuel, false), flat).disk, ["artefacts"]);
    course := Course(flat, shared, fuel);
  }

  lemma {:induction false} FlattenStopped(w: Walk, names: seq<string>, n: nat)
    requires n <= |names| && FlattenAll(w, names[..n]).crashed
    ensures FlattenAll(w, names) == FlattenAll(w, names[..n])
    decreases |names|
  {
    if n < |names| {
      var m := |names| - 1;
      assert names[..m][..n] == names[..n];
      FlattenStopped(w, names[..m], n);
      CrashedStays(FlattenAll(w, names[..m]), names[m]);
    } else {
      assert names[..n] == names;
    }
  }

  lemma {:induction false} FanOutStopped(w: Walk, chatOf: string -> Option<string>, names: seq<string>, n: nat)
    requires n <= |names| && FanOutAll(w, chatOf, names[..n]).crashed
    ensures FanOutAll(w, chatOf, names) == FanOutAll(w, chatOf, names[..n])
    decreases |names|
  {
    if n < |names| {
      var m := |names| - 1;
      assert names[..m][..n] == names[..n];
      FanOutStopped(w, chatOf, names[..m], n);
      CrashedStaysHere(FanOutAll(w, chatOf, names[..m]), chatOf, names[m]);
    } else {
      assert names[..n] == names;
    }
  }
}
