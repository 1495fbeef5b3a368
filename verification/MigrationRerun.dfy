/**
 A start that is cut off between its last rename and its version file is followed by one that takes every chat
 directory whose name ends in `_media` for the media directory of another chat.
 */
module MigrationRerun {
  import opened Wrappers
  import opened Migration
  import opened MigrationRuns

  // ---- What a walk over a moved directory keeps -------------------------------------------------------

  /** Against the directory `full`, where nothing is left to move: no short path is new, no entry has one below it. */
  ghost predicate Settled(full: Disk, disk: Disk) {
    && (forall q | q in disk && |q| <= 2 :: q in full && disk[q] == full[q])
    && (forall q | q in disk :: |q| >= 1)
    && (forall name, q | [name] in disk && q in disk :: !Within([name], q))
  }

  /** The chat's entry is still there and its media place free, or it is gone. */
  ghost predicate Standing(disk: Disk, dest: Path, place: Path) {
    dest in disk && forall q | q in disk :: q != place && !Within(q, place) && !Within(place, q)
  }

  /** A directory that is moved out of the way, with everything below it, to a media place. */
  lemma MovedBelow(disk: Disk, name: string, q: Path)
    requires EndsWith(name, "_media") && [name] !in disk && !Blocked(disk, [name], MediaPlace(name))
    requires forall r | r in disk :: |r| >= 1
    requires q in Rename(disk, [name], MediaPlace(name))
    ensures (q in disk && q[0] != name && Rename(disk, [name], MediaPlace(name))[q] == disk[q])
            || (|q| >= 3 && q[0] == Strip(name, "_media") && q[1] == "media")
  {
    var place := MediaPlace(name);
    if q in Relocated(disk, [name], place) {
      assert q[..2] == place;
      assert q[0] == q[..2][0] && q[1] == q[..2][1];
      assert [name] + [] == [name];
      assert [name] + q[2..] in disk;
    } else {
      assert q[..1] == [q[0]];
    }
  }

  lemma FlattenKeepsSettled(full: Disk, chatOf: string -> Option<string>, w: Walk, name: string)
    requires Movable(full, chatOf) == {} && Settled(full, w.disk)
    ensures Settled(full, FlattenOne(w, name).disk)
    ensures [name] in w.disk || !EndsWith(name, "_media") ==> FlattenOne(w, name) == w
  {
    if [name] in w.disk {
      EntryStays(full, chatOf, w.disk, name);
    } else if FlatMove(w.disk, name).Some? {
      assert FlatMove(w.disk, name) == Some(MediaPlace(name));
      if FlattenOne(w, name).disk != w.disk {
        RenameKeepsSettled(full, w.disk, name);
      }
    }
  }

  lemma EntryStays(full: Disk, chatOf: string -> Option<string>, disk: Disk, name: string)
    requires Movable(full, chatOf) == {} && Settled(full, disk) && [name] in disk
    ensures FlatMove(disk, name).None?
  {
    assert [name] in full && disk[[name]] == full[[name]];
    assert [name] !in Movable(full, chatOf);
  }

  lemma RenameKeepsSettled(full: Disk, disk: Disk, name: string)
    requires Settled(full, disk) && EndsWith(name, "_media") && [name] !in disk
    requires !Blocked(disk, [name], MediaPlace(name))
    ensures Settled(full, Rename(disk, [name], MediaPlace(name)))
  {
    var after := Rename(disk, [name], MediaPlace(name));
    hide Rename, Blocked;
    forall q | q in after
      ensures |q| >= 1 && (|q| <= 2 ==> q in full && after[q] == full[q])
    {
      MovedBelow(disk, name, q);
    }
    forall other, q | [other] in after && q in after
      ensures !Within([other], q)
    {
      MovedBelow(disk, name, [other]);
      MovedBelow(disk, name, q);
      NothingAtStem(disk, name);
      WithinHead(other, q);
    }
  }

  lemma WithinHead(name: string, q: Path)
    requires |q| >= 1
    ensures Within([name], q) ==> q[0] == name
  {
    assert |q| > 1 ==> q[..1] == [q[0]];
  }

  lemma NothingAtStem(disk: Disk, name: string)
    requires EndsWith(name, "_media") && !Blocked(disk, [name], MediaPlace(name))
    ensures [Strip(name, "_media")] !in disk
  {
    assert Within([Strip(name, "_media")], MediaPlace(name));
  }

  // ---- The chat is moved away ------------------------------------------------------------------------

  /** An entry of a chat `c`, not itself in its media directory. */
  ghost predicate IsChatEntry(dest: Path, chat: string) {
    && |dest| >= 2 && dest[0] == chat && EndsWith(chat, "_media")
    && (dest[1] == "media" ==> |dest| == 2)
  }

  /** Another directory's turn changes nothing for the chat; and once gone, its entry does not come back. */
  lemma OtherTurn(disk: Disk, name: string, dest: Path, chat: string)
    requires forall r | r in disk :: |r| >= 1
    requires IsChatEntry(dest, chat) && EndsWith(name, "_media") && [name] !in disk
    requires !Blocked(disk, [name], MediaPlace(name))
    ensures var after := Rename(disk, [name], MediaPlace(name));
            && (name != chat && Standing(disk, dest, MediaPlace(chat)) ==> Standing(after, dest, MediaPlace(chat)))
            && (dest !in disk ==> dest !in after)
  {
    var after := Rename(disk, [name], MediaPlace(name));
    if dest in after {
      MovedBelow(disk, name, dest);
    }
    if name != chat && Standing(disk, dest, MediaPlace(chat)) {
      DestStays(disk, name, dest);
      hide Rename, Blocked;
      SameStem(name, chat);
      forall q | q in after
        ensures q != MediaPlace(chat) && !Within(q, MediaPlace(chat)) && !Within(MediaPlace(chat), q)
      {
        MovedBelow(disk, name, q);
        if q !in disk {
          AwayFromPlace(q, chat);
        }
      }
    }
  }

  lemma SameStem(a: string, b: string)
    requires EndsWith(a, "_media") && EndsWith(b, "_media") && a != b
    ensures Strip(a, "_media") != Strip(b, "_media")
  {
    assert Strip(a, "_media") + "_media" == a && Strip(b, "_media") + "_media" == b;
  }

  lemma AwayFromPlace(q: Path, chat: string)
    requires |q| >= 3 && EndsWith(chat, "_media") && q[0] != Strip(chat, "_media")
    ensures q != MediaPlace(chat) && !Within(q, MediaPlace(chat)) && !Within(MediaPlace(chat), q)
  {
    assert MediaPlace(chat)[0] == Strip(chat, "_media");
    assert q[..2][0] == q[0];
  }

  lemma DestStays(disk: Disk, name: string, dest: Path)
    requires dest in disk && |dest| >= 2 && dest[0] != name
    ensures EndsWith(name, "_media") ==> dest in Rename(disk, [name], MediaPlace(name))
  {
    assert dest[..1] == [dest[0]];
  }

  /** The chat's own turn moves everything of it into the media place. */
  lemma OwnTurn(disk: Disk, dest: Path, chat: string)
    requires IsChatEntry(dest, chat) && [chat] !in disk && Standing(disk, dest, MediaPlace(chat))
    requires forall r | r in disk :: |r| >= 1
    ensures FlatMove(disk, chat) == Some(MediaPlace(chat))
    ensures dest !in Rename(disk, [chat], MediaPlace(chat))
    ensures MediaPlace(chat) + dest[1..] in Rename(disk, [chat], MediaPlace(chat))
  {
    var place := MediaPlace(chat);
    assert dest[..1] == [chat] && Within([chat], dest);
    assert place[0] != chat;
    assert !AtOrBelow([chat], place) by {
      assert place[..1][0] == place[0];
    }
    var moved := place + dest[1..];
    assert moved[|place|..] == dest[1..] && [chat] + dest[1..] == dest && AtOrBelow(place, moved);
    if dest in Rename(disk, [chat], place) {
      MovedBelow(disk, chat, dest);
    }
  }

  ghost predicate GoneOrStanding(disk: Disk, dest: Path, place: Path) {
    dest !in disk || Standing(disk, dest, place)
  }

  lemma OneTurn(full: Disk, chatOf: string -> Option<string>, w: Walk, name: string, dest: Path, chat: string)
    requires Movable(full, chatOf) == {} && Settled(full, w.disk) && IsChatEntry(dest, chat) && [chat] !in w.disk
    requires !w.crashed && w.fuel > 0 && GoneOrStanding(w.disk, dest, MediaPlace(chat))
    ensures var w' := FlattenOne(w, name);
            && Settled(full, w'.disk) && !w'.crashed && w'.fuel + 1 >= w.fuel
            && GoneOrStanding(w'.disk, dest, MediaPlace(chat))
            && (dest !in w.disk || name == chat ==> dest !in w'.disk)
  {
    FlattenKeepsSettled(full, chatOf, w, name);
    if name == chat && dest in w.disk {
      OwnTurn(w.disk, dest, chat);
    } else if FlattenOne(w, name) != w {
      assert FlatMove(w.disk, name) == Some(MediaPlace(name));
      OtherTurn(w.disk, name, dest, chat);
    }
  }

  /** Once the chat's name has come up, its entry is gone, in whatever order the directory is listed. */
  lemma {:induction false} ChatIsSwallowed(full: Disk, chatOf: string -> Option<string>, w: Walk, names: seq<string>,
                                           dest: Path, chat: string)
    requires Movable(full, chatOf) == {} && Settled(full, w.disk) && IsChatEntry(dest, chat) && [chat] !in full
    requires !w.crashed && w.fuel > |names| && GoneOrStanding(w.disk, dest, MediaPlace(chat))
    ensures var w' := FlattenAll(w, names);
            && Settled(full, w'.disk) && !w'.crashed && w'.fuel + |names| >= w.fuel
            && GoneOrStanding(w'.disk, dest, MediaPlace(chat))
            && (chat in names ==> dest !in w'.disk)
    decreases |names|
  {
    hide Settled, GoneOrStanding, IsChatEntry, FlattenOne, Movable;
    if names != [] {
      var n := |names| - 1;
      ChatIsSwallowed(full, chatOf, w, names[..n], dest, chat);
      assert chat in names ==> chat in names[..n] || chat == names[n];
      var middle := FlattenAll(w, names[..n]);
      NoNewEntry(full, middle.disk, chat);
      OneTurn(full, chatOf, middle, names[n], dest, chat);
    }
  }

  lemma NoNewEntry(full: Disk, disk: Disk, name: string)
    requires Settled(full, disk) && [name] !in full
    ensures [name] !in disk
  {
  }

  lemma NothingToFanOut(full: Disk, chatOf: string -> Option<string>, disk: Disk, name: string)
    requires Movable(full, chatOf) == {} && Settled(full, disk)
    ensures ChatOfMeta(disk, chatOf, name).None?
  {
    var meta := ["artefacts", name];
    if EndsWith(name, ".meta.json") && meta in disk {
      assert meta in full && meta !in Movable(full, chatOf);
      assert MetaPath(Strip(name, ".meta.json")) == meta;
    }
  }

  lemma {:induction false} FanOutDoesNothing(full: Disk, chatOf: string -> Option<string>, w: Walk, names: seq<string>)
    requires Movable(full, chatOf) == {} && Settled(full, w.disk)
    ensures FanOutAll(w, chatOf, names) == w
    decreases |names|
  {
    if names != [] {
      FanOutDoesNothing(full, chatOf, w, names[..|names| - 1]);
      NothingToFanOut(full, chatOf, w.disk, names[|names| - 1]);
    }
  }

  // ---- From the layout of an uninterrupted start ------------------------------------------------------

  lemma FullIsSettled(origin: Disk, chatOf: string -> Option<string>, full: Disk)
    requires Ordinary(origin, chatOf) && Reached(origin, chatOf, Movable(origin, chatOf), full)
    ensures Settled(full, full) && Movable(full, chatOf) == {}
  {
    RestIsMovable(origin, chatOf, Movable(origin, chatOf), full);
    forall q | q in full
      ensures |q| >= 1
    {
      PathIsLong(origin, chatOf, full, q);
    }
    forall name, q | [name] in full && q in full
      ensures !Within([name], q)
    {
      KindOfEntry(origin, chatOf, Movable(origin, chatOf), full, [name][0]);
      if Within([name], q) {
        LongPathsArePlain(origin, chatOf, Movable(origin, chatOf), full, q);
      }
    }
  }

  lemma PathIsLong(origin: Disk, chatOf: string -> Option<string>, full: Disk, q: Path)
    requires Ordinary(origin, chatOf) && Layout(origin, PlanOf(origin, chatOf), Movable(origin, chatOf), full)
    requires q in full
    ensures |q| >= 1
  {
    if q !in origin {
      var p :| p in Movable(origin, chatOf) && p in PlanOf(origin, chatOf) && PlanOf(origin, chatOf)[p] == q;
      DestShape(origin, chatOf, p);
    }
  }

  lemma ChatStands(origin: Disk, chatOf: string -> Option<string>, full: Disk, p: Path)
    requires Ordinary(origin, chatOf) && Layout(origin, PlanOf(origin, chatOf), Movable(origin, chatOf), full)
    requires Swallows(origin, chatOf, p)
    ensures var dest := Dest(origin, chatOf, p);
            && IsChatEntry(dest, dest[0]) && [dest[0]] !in full && [dest[0]] !in origin
            && Standing(full, dest, MediaPlace(dest[0])) && GoneOrStanding(full, dest, MediaPlace(dest[0]))
            && dest in full && DefaultVersion(full) == 0
  {
    var dest := Dest(origin, chatOf, p);
    DestShape(origin, chatOf, p);
    assert p in Movable(origin, chatOf) && dest in full;
    assert Telltale(dest[0]);
    ChatHasNoFile(origin, chatOf, full, p);
    forall q | q in full
      ensures q != MediaPlace(dest[0]) && !Within(q, MediaPlace(dest[0])) && !Within(MediaPlace(dest[0]), q)
    {
      if !(q in origin && q !in Movable(origin, chatOf)) {
        var m :| m in Movable(origin, chatOf) && m in PlanOf(origin, chatOf) && PlanOf(origin, chatOf)[m] == q;
        DestIsNoOtherMedia(origin, chatOf, m, dest[0]);
      }
    }
  }

  lemma ChatHasNoFile(origin: Disk, chatOf: string -> Option<string>, full: Disk, p: Path)
    requires Ordinary(origin, chatOf) && Layout(origin, PlanOf(origin, chatOf), Movable(origin, chatOf), full)
    requires Swallows(origin, chatOf, p)
    ensures [Dest(origin, chatOf, p)[0]] !in origin && [Dest(origin, chatOf, p)[0]] !in full
  {
    var dest := Dest(origin, chatOf, p);
    PlaceIsPlain(origin, chatOf, p);
    OneIsAbove([dest[0]], dest);
    if [dest[0]] in full {
      Unmoved(origin, chatOf, Movable(origin, chatOf), full, [dest[0]]);
    }
  }

  /** Only the media directory of that name goes to the place. */
  lemma DestIsNoOtherMedia(origin: Disk, chatOf: string -> Option<string>, m: Path, chat: string)
    requires Moves(origin, chatOf, m) && EndsWith(chat, "_media") && [chat] !in origin
    ensures var dest := Dest(origin, chatOf, m);
            dest != MediaPlace(chat) && !Within(dest, MediaPlace(chat)) && !Within(MediaPlace(chat), dest)
  {
    DestShape(origin, chatOf, m);
    var dest := Dest(origin, chatOf, m);
    if Within(MediaPlace(chat), dest) {
      WithinAgrees(MediaPlace(chat), dest, 1);
    }
    assert |m| == 1 ==> m == [m[0]];
  }

  /**
   After a first start that was cut off between its last rename and the version file, every start that is not cut
   off takes the chat's directory for a media directory: the entry is not where it belongs.
   */
  lemma RerunSwallows(origin: Disk, chatOf: string -> Option<string>, version: Option<nat>, p: Path,
                      full: Disk, second: Course)
    requires Ordinary(origin, chatOf) && NotCurrent(version) && Swallows(origin, chatOf, p)
    requires Reached(origin, chatOf, Movable(origin, chatOf), full)
    requires IsCourse(full, second) && second.fuel > |second.flat|
    ensures var begun := StartOf(full, version, chatOf, second);
            begun.outcome.Migrated? && Dest(origin, chatOf, p) !in begun.disk
  {
    hide Ordinary, Layout, BodiesFirst, Movable, Settled, Standing, DefaultVersion, FlattenAll, FanOutAll, Listing;
    var dest := Dest(origin, chatOf, p);
    FullIsSettled(origin, chatOf, full);
    ChatStands(origin, chatOf, full, p);
    ChatIsListed(full, dest, second);
    ChatIsSwallowed(full, chatOf, Walk(full, second.fuel, false), second.flat, dest, dest[0]);
    FanOutDoesNothing(full, chatOf, Flattened(full, second), second.shared);
  }

  lemma ChatIsListed(full: Disk, dest: Path, second: Course)
    requires IsCourse(full, second) && dest in full && |dest| >= 1
    ensures dest[0] in second.flat
  {
    assert Within([], dest) && Listed(full, [], dest[0]);
  }

  // ---- Exactly when a crash does no harm --------------------------------------------------------------

  lemma SwallowedIsLost(origin: Disk, chatOf: string -> Option<string>, version: Option<nat>, p: Path)
    requires Ordinary(origin, chatOf) && NotCurrent(version) && Swallows(origin, chatOf, p)
    ensures !SurvivesCrash(origin, chatOf, version)
  {
    hide Ordinary, Reached, Movable, FlattenAll, FanOutAll, Listing, DefaultVersion;
    var first := CutBeforeVersion(origin, chatOf, version, p);
    var cut := StartOf(origin, version, chatOf, first);
    var flat := ListingOf(cut.disk, []);
    var fuel := |flat| + 1;
    var shared := ListingOf(FlattenAll(Walk(cut.disk, fuel, false), flat).disk, ["artefacts"]);
    var second := Course(flat, shared, fuel);
    RerunSwallows(origin, chatOf, version, p, cut.disk, second);
    var final := StartOf(cut.disk, cut.version, chatOf, second).disk;
    assert IsRerun(origin, chatOf, version, first, second, final);
    LayoutHasDest(origin, chatOf, p, final);
  }

  lemma LayoutHasDest(origin: Disk, chatOf: string -> Option<string>, p: Path, disk: Disk)
    requires Moves(origin, chatOf, p)
    ensures Layout(origin, PlanOf(origin, chatOf), Movable(origin, chatOf), disk) ==> Dest(origin, chatOf, p) in disk
  {
    assert p in Movable(origin, chatOf);
  }

  /**
   A start after a crash reaches what an uninterrupted start reaches, wherever the crash strikes and in whatever
   order directories are listed, exactly when nothing goes to a chat whose id ends in `_media`, unless an entry
   that stays keeps the place of the media directory for which that chat would be taken.
   */
  lemma SurvivesCrashExactly(origin: Disk, chatOf: string -> Option<string>, version: Option<nat>)
    requires Ordinary(origin, chatOf) && NotCurrent(version)
    ensures SurvivesCrash(origin, chatOf, version) <==> !Swallowed(origin, chatOf)
  {
    if p :| Swallows(origin, chatOf, p) {
      SwallowedIsLost(origin, chatOf, version, p);
    } else {
      forall first, second, final | IsRerun(origin, chatOf, version, first, second, final)
        ensures Layout(origin, PlanOf(origin, chatOf), Movable(origin, chatOf), final)
      {
        RerunReachesLayout(origin, chatOf, version, first, second, final);
      }
    }
  }

  /** Where every such place is free, that is exactly when no chat id ends in `_media`. */
  lemma SurvivesWithoutMediaNames(origin: Disk, chatOf: string -> Option<string>, version: Option<nat>)
    requires Ordinary(origin, chatOf) && NotCurrent(version)
    requires forall p | Moves(origin, chatOf, p) && EndsWith(ChatOf(origin, chatOf, p), "_media") ::
               StaysFree(origin, chatOf, MediaPlace(ChatOf(origin, chatOf, p)))
    ensures SurvivesCrash(origin, chatOf, version)
            <==> forall p | Moves(origin, chatOf, p) :: !EndsWith(ChatOf(origin, chatOf, p), "_media")
  {
    SurvivesCrashExactly(origin, chatOf, version);
    forall p | Moves(origin, chatOf, p)
      ensures Swallows(origin, chatOf, p) <==> EndsWith(ChatOf(origin, chatOf, p), "_media")
    {
      DestShape(origin, chatOf, p);
    }
  }

  /** The chat that an entry goes to. */
  function ChatOf(origin: Disk, chatOf: string -> Option<string>, p: Path): string
    requires Moves(origin, chatOf, p)
  {
    DestShape(origin, chatOf, p);
    Dest(origin, chatOf, p)[0]
  }

  // ---- One chat ---------------------------------------------------------------------------------------

  const FLAT: Path := ["x_media.json"]

  const CHAT: Path := ["x_media", "transcript.json"]

  const SWALLOWED: Path := ["x", "media", "transcript.json"]

  lemma ExampleNames()
    ensures FlatTarget("x_media.json", false) == Some(CHAT)
    ensures FlatTarget("x_media", true) == Some(MediaPlace("x_media")) && MediaPlace("x_media") == ["x", "media"]
    ensures Telltale("x_media.json") && Telltale("x_media") && PlainChat("x_media")
  {
    assert Strip("x_media.json", ".json") == "x_media" && SplitAtDot("x_media") == None;
    assert Strip("x_media", "_media") == "x";
  }

  const FIRST := Course(["x_media.json"], [], 1)

  const SECOND := Course(["x_media"], [], 2)

  lemma FirstRename(content: string)
    ensures FlattenOne(Walk(map[FLAT := File(content)], 1, false), "x_media.json")
         == Walk(map[CHAT := File(content)], 0, false)
  {
    hide FlatTarget, EndsWith, Telltale;
    var disk: Disk := map[FLAT := File(content)];
    ExampleNames();
    assert !IsDir(disk, FLAT) && !IsDir(disk, CHAT);
    assert FLAT[0] == "x_media.json" && CHAT[..1][0] == "x_media";
    assert "x_media.json" != "x_media";
    RenameOfOne(disk, FLAT, CHAT);
    hide Rename, Blocked, IsDir;
    assert (disk - {FLAT})[CHAT := disk[FLAT]] == map[CHAT := File(content)];
    assert FLAT !in Rename(disk, FLAT, CHAT);
  }

  lemma SecondRename(content: string)
    ensures FlattenOne(Walk(map[CHAT := File(content)], 2, false), "x_media")
         == Walk(map[SWALLOWED := File(content)], 1, false)
  {
    hide FlatTarget, EndsWith, Telltale, MediaPlace, Rename;
    var disk: Disk := map[CHAT := File(content)];
    ExampleNames();
    assert CHAT[..1] == ["x_media"] && Within(["x_media"], CHAT);
    var place: Path := ["x", "media"];
    assert "x_media" != "x" && place[0] == "x" && CHAT[0] == "x_media";
    assert !AtOrBelow(["x_media"], place) by {
      assert place[..1][0] == "x";
    }
    assert !Within(CHAT, place) && !Within(place, CHAT) && !Blocked(disk, ["x_media"], place) by {
      assert CHAT[..2] == CHAT;
    }
    OnlyBelow(content);
  }

  lemma OnlyBelow(content: string)
    requires !Blocked(map[CHAT := File(content)], ["x_media"], ["x", "media"])
    ensures Rename(map[CHAT := File(content)], ["x_media"], ["x", "media"]) == map[SWALLOWED := File(content)]
    ensures SWALLOWED != CHAT
  {
    var disk: Disk := map[CHAT := File(content)];
    var src: Path, dst: Path := ["x_media"], ["x", "media"];
    assert CHAT[..1] == src && CHAT == src + ["transcript.json"] && SWALLOWED == dst + ["transcript.json"];
    forall r
      ensures r in Relocated(disk, src, dst) <==> r == SWALLOWED
    {
      assert SWALLOWED[..2] == dst && SWALLOWED[2..] == ["transcript.json"];
      if r in Relocated(disk, src, dst) {
        assert (src + r[2..])[1..] == r[2..] && CHAT[1..] == ["transcript.json"];
        assert r == r[..2] + r[2..];
      }
    }
    assert SWALLOWED[0] == "x" && CHAT[0] == "x_media";
  }

  lemma OneEntryListing(p: Path, content: string)
    requires |p| >= 1 && p[0] != "artefacts"
    ensures Listing(map[p := File(content)], [], [p[0]])
    ensures Listing(map[p := File(content)], ["artefacts"], [])
  {
    var disk: Disk := map[p := File(content)];
    forall name
      ensures Listed(disk, [], name) <==> name == p[0]
      ensures !Listed(disk, ["artefacts"], name)
    {
      assert p in disk && Within([], p);
      assert |p| > 1 ==> p[..1] == [p[0]];
    }
  }

  lemma FirstStart(content: string, chatOf: string -> Option<string>)
    ensures IsCourse(map[FLAT := File(content)], FIRST)
    ensures StartOf(map[FLAT := File(content)], None, chatOf, FIRST) == Begun(map[CHAT := File(content)], None, Crashed)
  {
    hide FlatTarget, EndsWith, FlattenOne, Listing;
    ExampleNames();
    FirstRename(content);
    OneEntryListing(FLAT, content);
    OneEntryListing(CHAT, content);
    assert DefaultVersion(map[FLAT := File(content)]) == 0 by {
      assert FLAT in map[FLAT := File(content)] && FLAT[0] == "x_media.json";
    }
    OneName(Walk(map[FLAT := File(content)], 1, false), "x_media.json");
  }

  lemma OneName(w: Walk, name: string)
    ensures FlattenAll(w, [name]) == FlattenOne(w, name)
  {
    assert [name][..0] == [];
  }

  lemma SecondStart(content: string, chatOf: string -> Option<string>)
    ensures IsCourse(map[CHAT := File(content)], SECOND)
    ensures StartOf(map[CHAT := File(content)], None, chatOf, SECOND)
         == Begun(map[SWALLOWED := File(content)], Some(CURRENT_CHATS_VERSION), Migrated)
  {
    hide FlatTarget, EndsWith, FlattenOne, Listing;
    ExampleNames();
    SecondRename(content);
    OneEntryListing(CHAT, content);
    OneEntryListing(SWALLOWED, content);
    assert DefaultVersion(map[CHAT := File(content)]) == 0 by {
      assert CHAT in map[CHAT := File(content)] && CHAT[0] == "x_media";
    }
    OneName(Walk(map[CHAT := File(content)], 2, false), "x_media");
  }

  /**
   A chat whose transcript is `x_media.json`: the first start is cut off after its one rename, and the second
   leaves the transcript among the media of chat `x`.
   */
  lemma ChatBecomesMedia(content: string, chatOf: string -> Option<string>)
    ensures Ordinary(map[FLAT := File(content)], chatOf)
    ensures IsRerun(map[FLAT := File(content)], chatOf, None, FIRST, SECOND, map[SWALLOWED := File(content)])
    ensures Moves(map[FLAT := File(content)], chatOf, FLAT) && Dest(map[FLAT := File(content)], chatOf, FLAT) == CHAT
  {
    hide FlatTarget, EndsWith, Telltale, StartOf, IsCourse, Ordinary, PlainChat;
    ExampleNames();
    FlatTranscriptIsOrdinary("x_media.json", "x_media", content, chatOf);
    FirstStart(content, chatOf);
    SecondStart(content, chatOf);
    assert FLAT[0] == "x_media.json";
  }
}
