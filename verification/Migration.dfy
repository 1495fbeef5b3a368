/**
 Moving a flat chats directory into one subdirectory per chat, one rename at a time: where every entry belongs,
 and what the directory looks like after some of the renames.
 */
module Migration {
  import opened Wrappers

  // ---- Names ----------------------------------------------------------------------------------------

  predicate EndsWith(name: string, suffix: string) {
    |name| >= |suffix| && name[|name| - |suffix|..] == suffix
  }

  function Strip(name: string, suffix: string): (stem: string)
    requires EndsWith(name, suffix)
    ensures stem + suffix == name
  {
    name[..|name| - |suffix|]
  }

  lemma EndsWithMeaning(name: string, suffix: string)
    ensures EndsWith(name, suffix) <==> exists stem :: name == stem + suffix
    ensures EndsWith(name, suffix) ==> forall stem | name == stem + suffix :: stem == Strip(name, suffix)
  {
    if EndsWith(name, suffix) {
      assert name == Strip(name, suffix) + suffix;
    }
    forall stem | name == stem + suffix
      ensures EndsWith(name, suffix) && stem == name[..|name| - |suffix|]
    {
    }
  }

  /** The parts before and after the first dot. */
  function SplitAtDot(stem: string): (parts: Option<(string, string)>)
    ensures parts.Some? ==> parts.value.0 + "." + parts.value.1 == stem && '.' !in parts.value.0
    ensures parts.None? <==> '.' !in stem
    ensures stem != "" && stem[0] != '.' && parts.Some? ==> parts.value.0 != ""
  {
    if stem == "" then None
    else if stem[0] == '.' then
      assert stem == "" + "." + stem[1..];
      Some(("", stem[1..]))
    else
      var rest := SplitAtDot(stem[1..]);
      assert stem == [stem[0]] + stem[1..];
      if rest.None? then None
      else
        assert [stem[0]] + rest.value.0 + "." + rest.value.1 == [stem[0]] + (rest.value.0 + "." + rest.value.1);
        Some(([stem[0]] + rest.value.0, rest.value.1))
  }

  // ---- The directory --------------------------------------------------------------------------------

  type Path = seq<string>

  /** A plain file, or a directory that is only ever moved as a whole. */
  datatype Node = File(content: string) | Dir(content: string)

  /** Everything below the chats directory; a directory with entries is implied by their paths. */
  type Disk = map<Path, Node>

  predicate Within(p: Path, q: Path) {
    |p| < |q| && q[..|p|] == p
  }

  predicate IsDir(disk: Disk, p: Path) {
    (p in disk && disk[p].Dir?) || exists q | q in disk :: Within(p, q)
  }

  predicate AtOrBelow(p: Path, q: Path) {
    |p| <= |q| && q[..|p|] == p
  }

  predicate Exists(disk: Disk, p: Path) {
    p in disk || IsDir(disk, p)
  }

  /**
   When a rename fails: its source is gone, its target is inside the source or below a file, or something
   other than a file to be replaced by a file is there already.
   */
  predicate Blocked(disk: Disk, src: Path, dst: Path) {
    || !Exists(disk, src)
    || AtOrBelow(src, dst)
    || (exists q | q in disk :: Within(q, dst))
    || IsDir(disk, dst)
    || (IsDir(disk, src) && dst in disk)
  }

  function Relocated(disk: Disk, src: Path, dst: Path): (keys: set<Path>)
    ensures forall r :: r in keys <==> AtOrBelow(dst, r) && src + r[|dst|..] in disk
  {
    var keys := set q | q in disk && AtOrBelow(src, q) :: dst + q[|src|..];
    assert forall q | AtOrBelow(src, q) :: AtOrBelow(dst, dst + q[|src|..]) && src + (dst + q[|src|..])[|dst|..] == q;
    forall r | AtOrBelow(dst, r) && src + r[|dst|..] in disk
      ensures r in keys
    {
      var q := src + r[|dst|..];
      assert AtOrBelow(src, q) && dst + q[|src|..] == r;
    }
    keys
  }

  /** A failed rename only logs a warning; a rename of a directory takes everything below it along. */
  function Rename(disk: Disk, src: Path, dst: Path): Disk {
    if Blocked(disk, src, dst) then disk
    else (map q | q in disk && !AtOrBelow(src, q) :: disk[q])
         + (map r | r in Relocated(disk, src, dst) :: disk[src + r[|dst|..]])
  }

  /** Everything at or below the source is at or below the target, everything else is where it was. */
  lemma RenameMeaning(disk: Disk, src: Path, dst: Path)
    requires !Blocked(disk, src, dst)
    ensures var after := Rename(disk, src, dst);
            && (forall rest: Path | src + rest in disk :: dst + rest in after && after[dst + rest] == disk[src + rest])
            && (forall q | q in disk && !AtOrBelow(src, q) && !AtOrBelow(dst, q) :: q in after && after[q] == disk[q])
            && (forall q | q in after && q !in disk :: exists rest: Path :: q == dst + rest && src + rest in disk)
            && (forall rest: Path :: src + rest !in after)
  {
    var after := Rename(disk, src, dst);
    forall rest: Path | src + rest in disk
      ensures dst + rest in after && after[dst + rest] == disk[src + rest]
    {
      assert (dst + rest)[|dst|..] == rest && AtOrBelow(dst, dst + rest);
    }
    forall q | q in after && q !in disk
      ensures exists rest: Path :: q == dst + rest && src + rest in disk
    {
      assert q == dst + q[|dst|..];
    }
    forall rest: Path
      ensures src + rest !in after
    {
      var q := src + rest;
      assert AtOrBelow(src, q);
      if AtOrBelow(dst, q) {
        BothAbove(src, dst, q);
      }
    }
  }

  lemma BothAbove(p: Path, q: Path, r: Path)
    requires AtOrBelow(p, r) && AtOrBelow(q, r)
    ensures AtOrBelow(p, q) || AtOrBelow(q, p)
  {
    assert |p| <= |q| ==> r[..|q|][..|p|] == r[..|p|];
    assert |q| <= |p| ==> r[..|p|][..|q|] == r[..|q|];
  }

  /** A file, or a directory that is moved as a whole, is simply found at its new place. */
  lemma RenameOfOne(disk: Disk, src: Path, dst: Path)
    requires src in disk && !Blocked(disk, src, dst)
    requires forall q | q in disk :: !Within(src, q)
    ensures Rename(disk, src, dst) == (disk - {src})[dst := disk[src]]
  {
    forall q | q in disk
      ensures AtOrBelow(src, q) <==> q == src
    {
    }
    forall r
      ensures r in Relocated(disk, src, dst) <==> r == dst
    {
      if r in Relocated(disk, src, dst) {
        assert AtOrBelow(src, src + r[|dst|..]);
        assert r[|dst|..] == [];
        assert r == dst + r[|dst|..];
      }
      assert src + dst[|dst|..] == src;
    }
  }

  // ---- Where everything belongs ---------------------------------------------------------------------

  function FlatTarget(name: string, isDir: bool): Option<Path> {
    if isDir then
      if EndsWith(name, "_media") then Some([Strip(name, "_media"), "media"]) else None
    else if EndsWith(name, "_feedback.json") then Some([Strip(name, "_feedback.json"), "feedback.json"])
    else if EndsWith(name, ".json") then
      var stem := Strip(name, ".json");
      if stem != "" && stem[0] == '.' then None
      else
        match SplitAtDot(stem)
        case Some((id, timestamp)) => Some([id, "archives", timestamp + ".json"])
        case None => Some([stem, "transcript.json"])
    else None
  }

  /**
   Where a flat name goes: media directories, feedback, archives cut at the first dot, transcripts; every other
   directory, every other file and every hidden `.json` file stays.
   */
  lemma FlatTargetExactly(name: string, isDir: bool)
    ensures match FlatTarget(name, isDir)
            case Some(target) =>
              && |target| >= 2
              && var id := target[0];
              if isDir then name == id + "_media" && target == [id, "media"]
              else if exists stem :: name == stem + "_feedback.json" then
                name == id + "_feedback.json" && target == [id, "feedback.json"]
              else
                && '.' !in id
                && if |target| == 2 then name == id + ".json" && target[1] == "transcript.json"
                   else
                     && id != "" && |target| == 3 && target[1] == "archives"
                     && name == id + "." + target[2] && exists timestamp :: target[2] == timestamp + ".json"
            case None =>
              if isDir then forall stem :: name != stem + "_media"
              else forall stem | name == stem + ".json" :: stem != "" && stem[0] == '.'
  {
    EndsWithMeaning(name, "_media");
    EndsWithMeaning(name, "_feedback.json");
    EndsWithMeaning(name, ".json");
    if !isDir && EndsWith(name, ".json") && !EndsWith(name, "_feedback.json") {
      var parts := SplitAtDot(Strip(name, ".json"));
      if parts.Some? {
        var (id, timestamp) := parts.value;
        assert id + "." + timestamp + ".json" == id + "." + (timestamp + ".json");
      }
    }
    forall stem | name == stem + "_feedback.json"
      ensures name == (stem + "_feedback") + ".json"
    {
    }
  }

  /** The flat name that a per-chat path came from. */
  function FlatName(target: Path): string
    requires |target| >= 2
  {
    if target[1] == "media" then target[0] + "_media"
    else if target[1] == "feedback.json" then target[0] + "_feedback.json"
    else if target[1] == "archives" && |target| == 3 then target[0] + "." + target[2]
    else target[0] + ".json"
  }

  /** The name and the kind can be read back from the target, so no two flat entries share one. */
  lemma FlatTargetIsInvertible(name: string, isDir: bool)
    requires FlatTarget(name, isDir).Some?
    ensures var target := FlatTarget(name, isDir).value;
            && |target| >= 2 && FlatName(target) == name && isDir == (target[1] == "media")
            && target[1] in ["media", "feedback.json", "archives", "transcript.json"]
            && |target| == (if target[1] == "archives" then 3 else 2)
  {
    var target := FlatTarget(name, isDir).value;
    if target[1] == "archives" {
      var stem := Strip(name, ".json");
      var (id, timestamp) := SplitAtDot(stem).value;
      assert id + "." + (timestamp + ".json") == id + "." + timestamp + ".json";
    }
  }

  function MetaPath(id: string): Path {
    ["artefacts", id + ".meta.json"]
  }

  function BodyPath(id: string): Path {
    ["artefacts", id + ".body"]
  }

  /** The chat that a shared artefact's meta file names; `chatOf` reads the `chat_id` out of its text. */
  function Owner(disk: Disk, chatOf: string -> Option<string>, id: string): Option<string> {
    if MetaPath(id) in disk && disk[MetaPath(id)].File? then chatOf(disk[MetaPath(id)].content) else None
  }

  function SharedTarget(disk: Disk, chatOf: string -> Option<string>, name: string): Option<Path> {
    var chat :=
      if EndsWith(name, ".meta.json") then Owner(disk, chatOf, Strip(name, ".meta.json"))
      else if EndsWith(name, ".body") then Owner(disk, chatOf, Strip(name, ".body"))
      else None;
    if chat.Some? then Some([chat.value, "artefacts", name]) else None
  }

  /** A shared artefact goes, under its name, to the chat that its meta file names, and stays if none does. */
  lemma SharedTargetExactly(disk: Disk, chatOf: string -> Option<string>, id: string, extension: string, chat: string)
    requires extension == ".meta.json" || extension == ".body"
    ensures SharedTarget(disk, chatOf, id + extension) == Some([chat, "artefacts", id + extension]) <==>
            && ["artefacts", id + ".meta.json"] in disk && disk[["artefacts", id + ".meta.json"]].File?
            && chatOf(disk[["artefacts", id + ".meta.json"]].content) == Some(chat)
    ensures SharedTarget(disk, chatOf, id + extension) != None ==>
              exists owner :: SharedTarget(disk, chatOf, id + extension) == Some([owner, "artefacts", id + extension])
  {
    var name := id + extension;
    EndsWithMeaning(name, extension);
    if extension == ".body" {
      EndsWithMeaning(name, ".meta.json");
      assert name[|name| - 1] == 'y';
    }
    var owner := Owner(disk, chatOf, id);
    assert owner.Some? ==> SharedTarget(disk, chatOf, name) == Some([owner.value, "artefacts", name]);
    assert [chat, "artefacts", name][0] == chat;
  }

  /** Where an entry of the directory has to go, if it has to go anywhere. */
  function Target(disk: Disk, chatOf: string -> Option<string>, p: Path): Option<Path>
    requires p in disk
  {
    if |p| == 1 then FlatTarget(p[0], disk[p].Dir?)
    else if |p| == 2 && p[0] == "artefacts" then SharedTarget(disk, chatOf, p[1])
    else None
  }

  ghost predicate Moves(disk: Disk, chatOf: string -> Option<string>, p: Path) {
    p in disk && Target(disk, chatOf, p).Some?
  }

  function Movable(disk: Disk, chatOf: string -> Option<string>): set<Path> {
    set p | p in disk && Target(disk, chatOf, p).Some?
  }

  function Dest(disk: Disk, chatOf: string -> Option<string>, p: Path): Path
    requires p in disk && Target(disk, chatOf, p).Some?
  {
    Target(disk, chatOf, p).value
  }

  lemma DestShape(disk: Disk, chatOf: string -> Option<string>, p: Path)
    requires Moves(disk, chatOf, p)
    ensures |Dest(disk, chatOf, p)| >= 2
    ensures var dest := Dest(disk, chatOf, p);
            if |p| == 1 then
              && FlatName(dest) == p[0]
              && dest[1] in ["media", "feedback.json", "archives", "transcript.json"]
              && |dest| == (if dest[1] == "archives" then 3 else 2)
            else dest[1] == "artefacts" && |dest| == 3 && p == ["artefacts", dest[2]]
  {
    if |p| == 1 {
      FlatTargetIsInvertible(p[0], disk[p].Dir?);
    } else {
      assert p == ["artefacts", p[1]];
    }
  }

  /** The entry that was sent to a place. */
  function Source(target: Path): Path
    requires |target| >= 2
  {
    if |target| == 3 && target[1] == "artefacts" then ["artefacts", target[2]] else [FlatName(target)]
  }

  lemma SourceOfDest(disk: Disk, chatOf: string -> Option<string>, p: Path)
    requires Moves(disk, chatOf, p)
    ensures |Dest(disk, chatOf, p)| >= 2 && Source(Dest(disk, chatOf, p)) == p
  {
    DestShape(disk, chatOf, p);
    assert |p| == 1 ==> p == [p[0]];
  }

  /** No two entries are sent to the same place, or one below the other. */
  lemma DestsDoNotMeet(disk: Disk, chatOf: string -> Option<string>, p: Path, q: Path)
    requires Moves(disk, chatOf, p) && Moves(disk, chatOf, q) && p != q
    ensures Dest(disk, chatOf, p) != Dest(disk, chatOf, q)
    ensures !Within(Dest(disk, chatOf, p), Dest(disk, chatOf, q))
  {
    SourceOfDest(disk, chatOf, p);
    SourceOfDest(disk, chatOf, q);
    DestShape(disk, chatOf, p);
    DestShape(disk, chatOf, q);
    if Within(Dest(disk, chatOf, p), Dest(disk, chatOf, q)) {
      WithinAgrees(Dest(disk, chatOf, p), Dest(disk, chatOf, q), 1);
    }
  }

  lemma WithinAgrees(p: Path, q: Path, i: nat)
    requires Within(p, q) && i < |p|
    ensures p[i] == q[i]
  {
    assert q[..|p|][i] == q[i];
  }

  // ---- Ordinary directories -------------------------------------------------------------------------

  predicate PlainName(name: string) {
    name != "" && name != "." && name != ".." && '/' !in name
  }

  /** A chat id that is a plain directory name, and still one without `_media` at its end. */
  predicate PlainChat(id: string) {
    PlainName(id) && (EndsWith(id, "_media") ==> PlainName(Strip(id, "_media")))
  }

  ghost predicate Free(disk: Disk, dest: Path) {
    dest !in disk && forall q | q in disk :: !Within(dest, q) && !Within(q, dest)
  }

  /**
   * The directories the migration is for: every chat id is plain, nothing stands where something has to go,
   * no artefact id ends in `.meta.json`, and the shared artefacts are plain files. Media directories are moved
   * as a whole; any other directory is there through its entries.
   */
  ghost predicate Ordinary(disk: Disk, chatOf: string -> Option<string>) {
    && (forall p | p in disk :: |p| >= 1)
    && (forall p, q | p in disk && q in disk :: !Within(p, q))
    && (forall p | p in disk && |p| > 1 :: !EndsWith(p[0], "_media"))
    && (forall p | p in disk && disk[p].Dir? :: |p| == 1 && EndsWith(p[0], "_media"))
    && (forall p | Moves(disk, chatOf, p) :: PlainChat(Dest(disk, chatOf, p)[0]) && Free(disk, Dest(disk, chatOf, p)))
    && (forall p | p in disk && |p| == 2 && p[0] == "artefacts" && EndsWith(p[1], ".meta.json") ::
          !EndsWith(Strip(p[1], ".meta.json"), ".meta.json"))
    && (forall p | p in disk && |p| >= 2 && p[0] == "artefacts"
                   && (EndsWith(p[1], ".meta.json") || EndsWith(p[1], ".body")) ::
          |p| == 2 && disk[p].File?)
  }

  /** A flat transcript is such a directory, and it has to move. */
  lemma FlatTranscriptIsOrdinary(name: string, chat: string, content: string, chatOf: string -> Option<string>)
    requires FlatTarget(name, false) == Some([chat, "transcript.json"]) && PlainChat(chat)
    ensures Ordinary(map[[name] := File(content)], chatOf)
    ensures Moves(map[[name] := File(content)], chatOf, [name])
  {
    var disk: Disk, dest: Path := map[[name] := File(content)], [chat, "transcript.json"];
    FlatTargetIsInvertible(name, false);
    assert dest[1] == "transcript.json" && dest[0] == chat;
    assert name == chat + ".json" && name != chat;
    hide FlatTarget, PlainChat;
    forall p | p in disk
      ensures p == [name] && Target(disk, chatOf, p) == Some(dest)
      ensures !Within(dest, p) && !Within(p, dest) && p != dest
    {
      assert dest[..1] == [chat] && [chat][0] != [name][0];
    }
    assert Dest(disk, chatOf, [name]) == dest;
  }

  // ---- Moving according to a plan -------------------------------------------------------------------

  /** For every entry that has to move, where it goes. */
  type Plan = map<Path, Path>

  ghost function PlanOf(disk: Disk, chatOf: string -> Option<string>): Plan {
    map p | p in disk && Target(disk, chatOf, p).Some? :: Target(disk, chatOf, p).value
  }

  /** No entry is below another, every place is free, and no place is that of two entries or below that of another. */
  ghost predicate SoundPlan(origin: Disk, plan: Plan) {
    && (forall p, q | p in origin && q in origin :: !Within(p, q))
    && (forall p | p in plan :: p in origin && Free(origin, plan[p]))
    && (forall p, q | p in plan && q in plan && p != q :: plan[p] != plan[q] && !Within(plan[p], plan[q]))
  }

  lemma PlanIsSound(disk: Disk, chatOf: string -> Option<string>)
    requires Ordinary(disk, chatOf)
    ensures SoundPlan(disk, PlanOf(disk, chatOf))
  {
    var plan := PlanOf(disk, chatOf);
    forall p, q | p in plan && q in plan && p != q
      ensures plan[p] != plan[q] && !Within(plan[p], plan[q])
    {
      DestsDoNotMeet(disk, chatOf, p, q);
    }
    forall p | p in plan
      ensures p in disk && Free(disk, plan[p])
    {
      assert Moves(disk, chatOf, p);
    }
  }

  /** What is found at `q` is a moved entry in its place. */
  ghost predicate Arrived(plan: Plan, moved: set<Path>, q: Path) {
    exists p :: p in moved && p in plan && plan[p] == q
  }

  /** The directory after the entries in `moved`, and only those, have reached their places. */
  ghost predicate Layout(origin: Disk, plan: Plan, moved: set<Path>, disk: Disk) {
    && (forall p | p in moved :: p in plan && p in origin)
    && (forall p | p in origin && p !in moved :: p in disk && disk[p] == origin[p])
    && (forall p | p in moved :: plan[p] in disk && disk[plan[p]] == origin[p])
    && (forall q | q in disk :: (q in origin && q !in moved) || Arrived(plan, moved, q))
  }

  /** A meta file leaves the shared directory only after its body. */
  ghost predicate BodiesFirst(origin: Disk, moved: set<Path>) {
    forall id | MetaPath(id) in moved && BodyPath(id) in origin :: BodyPath(id) in moved
  }

  /** Where everything is follows from what has moved. */
  lemma LayoutIsUnique(origin: Disk, plan: Plan, moved: set<Path>, a: Disk, b: Disk)
    requires Layout(origin, plan, moved, a) && Layout(origin, plan, moved, b)
    ensures a == b
  {
    LayoutIncludes(origin, plan, moved, a, b);
    LayoutIncludes(origin, plan, moved, b, a);
  }

  lemma LayoutIncludes(origin: Disk, plan: Plan, moved: set<Path>, a: Disk, b: Disk)
    requires Layout(origin, plan, moved, a) && Layout(origin, plan, moved, b)
    ensures forall q | q in a :: q in b && a[q] == b[q]
  {
  }

  /** The one rename of an entry that is still to be moved succeeds, overwrites nothing and hides nothing. */
  lemma RenameKeepsLayout(origin: Disk, plan: Plan, moved: set<Path>, disk: Disk, p: Path)
    requires SoundPlan(origin, plan) && Layout(origin, plan, moved, disk)
    requires p in plan && p !in moved
    ensures plan[p] !in disk && Rename(disk, p, plan[p]) == (disk - {p})[plan[p] := origin[p]]
    ensures Layout(origin, plan, moved + {p}, Rename(disk, p, plan[p]))
  {
    forall q | q in disk
      ensures q != plan[p] && !Within(q, plan[p]) && !Within(plan[p], q) && !Within(p, q)
    {
      PlaceIsFree(origin, plan, moved, disk, p, q);
    }
    assert p in disk;
    NotBelowMeansApart(p, plan[p]);
    RenameOfOne(disk, p, plan[p]);
    LayoutGrows(origin, plan, moved, disk, p);
  }

  lemma NotBelowMeansApart(p: Path, q: Path)
    ensures AtOrBelow(p, q) <==> p == q || Within(p, q)
  {
  }

  lemma PlaceIsFree(origin: Disk, plan: Plan, moved: set<Path>, disk: Disk, p: Path, q: Path)
    requires SoundPlan(origin, plan) && Layout(origin, plan, moved, disk)
    requires p in plan && p !in moved && q in disk
    ensures q != plan[p] && !Within(q, plan[p]) && !Within(plan[p], q) && !Within(p, q)
  {
    if !(q in origin && q !in moved) {
      var m :| m in moved && m in plan && plan[m] == q;
    }
  }

  lemma LayoutGrows(origin: Disk, plan: Plan, moved: set<Path>, disk: Disk, p: Path)
    requires SoundPlan(origin, plan) && Layout(origin, plan, moved, disk)
    requires p in plan && p !in moved && plan[p] !in disk
    ensures Layout(origin, plan, moved + {p}, (disk - {p})[plan[p] := origin[p]])
  {
    var after := (disk - {p})[plan[p] := origin[p]];
    forall q | q in origin && q !in moved + {p}
      ensures q in after && after[q] == origin[q]
    {
      assert q in disk && q != p && q != plan[p];
    }
    forall m | m in moved + {p}
      ensures m in plan && m in origin && plan[m] in after && after[plan[m]] == origin[m]
    {
      if m != p {
        assert m in moved && plan[m] != p;
      }
    }
    forall q | q in after
      ensures (q in origin && q !in moved + {p}) || Arrived(plan, moved + {p}, q)
    {
      if q == plan[p] {
        assert p in moved + {p};
      } else if !(q in origin && q !in moved) {
        var m :| m in moved && m in plan && plan[m] == q;
        assert m in moved + {p};
      }
    }
  }

  // ---- A second run sees the same work --------------------------------------------------------------

  lemma ArrivedIsSettled(origin: Disk, chatOf: string -> Option<string>, moved: set<Path>, disk: Disk, q: Path)
    requires Arrived(PlanOf(origin, chatOf), moved, q) && q in disk
    ensures |q| >= 2 && Target(disk, chatOf, q).None?
    ensures !EndsWith(q[1], ".meta.json") && !EndsWith(q[1], ".body")
  {
    var p :| p in moved && p in PlanOf(origin, chatOf) && PlanOf(origin, chatOf)[p] == q;
    hide Target, EndsWith;
    DestShape(origin, chatOf, p);
    SlotIsNoArtefact(q[1]);
    SlotStays(disk, chatOf, q);
  }

  /** The names that places in a chat are given are not those of shared artefacts. */
  lemma SlotIsNoArtefact(slot: string)
    requires slot in ["media", "feedback.json", "archives", "transcript.json", "artefacts"]
    ensures !EndsWith(slot, ".meta.json") && !EndsWith(slot, ".body")
  {
  }

  lemma SlotStays(disk: Disk, chatOf: string -> Option<string>, q: Path)
    requires q in disk && |q| >= 2 && !EndsWith(q[1], ".meta.json") && !EndsWith(q[1], ".body")
    ensures Target(disk, chatOf, q).None?
  {
  }

  lemma Unmoved(origin: Disk, chatOf: string -> Option<string>, moved: set<Path>, disk: Disk, q: Path)
    requires Layout(origin, PlanOf(origin, chatOf), moved, disk) && q in disk
    requires |q| == 1 || (|q| >= 2 && (EndsWith(q[1], ".meta.json") || EndsWith(q[1], ".body")))
    ensures q in origin && q !in moved
  {
    if !(q in origin && q !in moved) {
      ArrivedIsSettled(origin, chatOf, moved, disk, q);
    }
  }

  lemma OwnerIsStable(origin: Disk, chatOf: string -> Option<string>, moved: set<Path>, disk: Disk, id: string)
    requires Layout(origin, PlanOf(origin, chatOf), moved, disk) && MetaPath(id) !in moved
    ensures Owner(disk, chatOf, id) == Owner(origin, chatOf, id)
  {
    if MetaPath(id) in disk {
      Unmoved(origin, chatOf, moved, disk, MetaPath(id));
    }
  }

  /** Whatever has not moved yet still has to go to the same place. */
  lemma TargetIsStable(origin: Disk, chatOf: string -> Option<string>, moved: set<Path>, disk: Disk, p: Path)
    requires Layout(origin, PlanOf(origin, chatOf), moved, disk) && BodiesFirst(origin, moved)
    requires p in origin && p !in moved
    ensures p in disk && Target(disk, chatOf, p) == Target(origin, chatOf, p)
  {
    if |p| == 2 && p[0] == "artefacts" {
      assert p == ["artefacts", p[1]];
      if EndsWith(p[1], ".meta.json") {
        OwnerIsStable(origin, chatOf, moved, disk, Strip(p[1], ".meta.json"));
      } else if EndsWith(p[1], ".body") {
        assert p == BodyPath(Strip(p[1], ".body"));
        OwnerIsStable(origin, chatOf, moved, disk, Strip(p[1], ".body"));
      }
    }
  }

  /** After a crash, exactly the entries that were left behind are still to be moved. */
  lemma RestIsMovable(origin: Disk, chatOf: string -> Option<string>, moved: set<Path>, disk: Disk)
    requires Layout(origin, PlanOf(origin, chatOf), moved, disk) && BodiesFirst(origin, moved)
    ensures Movable(disk, chatOf) == Movable(origin, chatOf) - moved
  {
    forall q | q in disk
      ensures q in Movable(disk, chatOf) <==> q in Movable(origin, chatOf) - moved
    {
      if q in origin && q !in moved {
        TargetIsStable(origin, chatOf, moved, disk, q);
      } else {
        ArrivedIsSettled(origin, chatOf, moved, disk, q);
      }
    }
    forall q | q in Movable(origin, chatOf) - moved
      ensures q in disk
    {
      TargetIsStable(origin, chatOf, moved, disk, q);
    }
  }

  const CURRENT_CHATS_VERSION: nat := 1

  predicate Telltale(name: string) {
    EndsWith(name, ".json") || EndsWith(name, "_feedback.json") || EndsWith(name, "_media") || name == "artefacts"
  }

  /** The version of a directory without a readable version file. */
  function DefaultVersion(disk: Disk): (version: nat)
    ensures version <= CURRENT_CHATS_VERSION
  {
    if exists p | p in disk :: |p| >= 1 && Telltale(p[0]) then 0 else CURRENT_CHATS_VERSION
  }

  /** A directory is taken for the old layout exactly by the names at its top. */
  lemma DefaultVersionExactly(disk: Disk)
    ensures DefaultVersion(disk) == 0 <==>
            exists p :: p in disk && |p| >= 1
                        && (p[0] == "artefacts" || exists stem :: p[0] == stem + ".json" || p[0] == stem + "_media")
    ensures DefaultVersion(disk) in {0, 1}
  {
    hide EndsWith;
    forall p | p in disk && |p| >= 1
      ensures Telltale(p[0]) <==>
              p[0] == "artefacts" || exists stem :: p[0] == stem + ".json" || p[0] == stem + "_media"
    {
      TelltaleMeaning(p[0]);
    }
  }

  lemma TelltaleMeaning(name: string)
    ensures Telltale(name) <==> name == "artefacts" || exists stem :: name == stem + ".json" || name == stem + "_media"
  {
    EndsWithMeaning(name, ".json");
    EndsWithMeaning(name, "_feedback.json");
    EndsWithMeaning(name, "_media");
    hide EndsWith;
    forall stem | name == stem + "_feedback.json"
      ensures name == (stem + "_feedback") + ".json"
    {
    }
  }

  /** While anything is left to move, the directory still counts as the old layout. */
  lemma WorkKeepsVersionZero(disk: Disk, chatOf: string -> Option<string>, p: Path)
    requires Moves(disk, chatOf, p)
    ensures DefaultVersion(disk) == 0
  {
    assert |p| >= 1 && Telltale(p[0]);
  }

  // ---- Runs -----------------------------------------------------------------------------------------

  lemma BodyMoveKeepsOrder(origin: Disk, moved: set<Path>, p: Path)
    requires BodiesFirst(origin, moved)
    requires forall id | p == MetaPath(id) && BodyPath(id) in origin :: BodyPath(id) in moved
    ensures BodiesFirst(origin, moved + {p})
  {
  }

  lemma LongPathsArePlain(origin: Disk, chatOf: string -> Option<string>, moved: set<Path>, disk: Disk, q: Path)
    requires Ordinary(origin, chatOf) && Layout(origin, PlanOf(origin, chatOf), moved, disk)
    requires q in disk && |q| > 1
    ensures forall p | p in origin :: !Within(p, q)
    ensures EndsWith(q[0], "_media") ==>
              exists p :: p in moved && Moves(origin, chatOf, p) && Dest(origin, chatOf, p) == q
  {
    if !(q in origin && q !in moved) {
      var p :| p in moved && p in PlanOf(origin, chatOf) && PlanOf(origin, chatOf)[p] == q;
      PlaceIsPlain(origin, chatOf, p);
    }
  }

  lemma PlaceIsPlain(origin: Disk, chatOf: string -> Option<string>, p: Path)
    requires Ordinary(origin, chatOf) && Moves(origin, chatOf, p)
    ensures PlainChat(Dest(origin, chatOf, p)[0]) && Free(origin, Dest(origin, chatOf, p))
  {
  }

  /** Where the walk sends a top-level name that it was given earlier. */
  function FlatMove(disk: Disk, name: string): Option<Path> {
    if Exists(disk, [name]) then FlatTarget(name, IsDir(disk, [name])) else None
  }

  /** What a chat whose id ends in `_media` is taken for: the media directory of the chat with the shorter id. */
  function MediaPlace(chat: string): Path
    requires EndsWith(chat, "_media")
  {
    [Strip(chat, "_media"), "media"]
  }

  /** No entry that stays where it is stands at, above or below the place. */
  ghost predicate StaysFree(origin: Disk, chatOf: string -> Option<string>, place: Path) {
    forall q | q in origin && !Moves(origin, chatOf, q) :: q != place && !Within(q, place) && !Within(place, q)
  }

  /** Entry `p` goes to a chat whose id ends in `_media`, and nothing that stays keeps that place free of it. */
  ghost predicate Swallows(origin: Disk, chatOf: string -> Option<string>, p: Path) {
    && Moves(origin, chatOf, p) && |Dest(origin, chatOf, p)| >= 2 && EndsWith(Dest(origin, chatOf, p)[0], "_media")
    && StaysFree(origin, chatOf, MediaPlace(Dest(origin, chatOf, p)[0]))
  }

  ghost predicate Harmless(origin: Disk, chatOf: string -> Option<string>, name: string) {
    forall p | Swallows(origin, chatOf, p) :: Dest(origin, chatOf, p)[0] != name
  }

  /** A top-level entry is a directory just when it is a media directory, and nothing is below it. */
  lemma KindOfEntry(origin: Disk, chatOf: string -> Option<string>, moved: set<Path>, disk: Disk, name: string)
    requires Ordinary(origin, chatOf) && Layout(origin, PlanOf(origin, chatOf), moved, disk)
    requires [name] in disk
    ensures [name] in origin && [name] !in moved && disk[[name]] == origin[[name]]
    ensures IsDir(disk, [name]) == disk[[name]].Dir?
  {
    Unmoved(origin, chatOf, moved, disk, [name]);
    forall q | q in disk && Within([name], q)
      ensures false
    {
      LongPathsArePlain(origin, chatOf, moved, disk, q);
    }
  }

  /** A chat directory that the walk takes for a media directory is kept in its place by an entry that stays. */
  lemma MediaChatStays(origin: Disk, chatOf: string -> Option<string>, moved: set<Path>, disk: Disk, name: string)
    requires Ordinary(origin, chatOf) && Layout(origin, PlanOf(origin, chatOf), moved, disk)
    requires [name] !in disk && FlatMove(disk, name).Some? && Harmless(origin, chatOf, name)
    ensures Rename(disk, [name], FlatMove(disk, name).value) == disk
    ensures [name] !in origin
  {
    hide Layout, Ordinary, Target, StaysFree, Blocked;
    var q :| q in disk && Within([name], q);
    WithinAgrees([name], q, 0);
    LongPathsArePlain(origin, chatOf, moved, disk, q);
    var p :| p in moved && Moves(origin, chatOf, p) && Dest(origin, chatOf, p) == q;
    assert FlatMove(disk, name) == Some(MediaPlace(name)) && IsDir(disk, [name]);
    assert Swallows(origin, chatOf, p) <==> StaysFree(origin, chatOf, MediaPlace(name));
    BlockedByStaying(origin, chatOf, moved, disk, [name], MediaPlace(name));
  }

  lemma BlockedByStaying(
    origin: Disk, chatOf: string -> Option<string>, moved: set<Path>, disk: Disk, src: Path, place: Path)
    requires Layout(origin, PlanOf(origin, chatOf), moved, disk)
    requires IsDir(disk, src) && !StaysFree(origin, chatOf, place)
    ensures Blocked(disk, src, place)
  {
    var q :| q in origin && !Moves(origin, chatOf, q) && (q == place || Within(q, place) || Within(place, q));
    assert q !in moved;
    assert q in disk;
  }

  /** What the walk does about a top-level name is what the original directory calls for. */
  lemma FlatMoveIsCalledFor(origin: Disk, chatOf: string -> Option<string>, moved: set<Path>, disk: Disk, name: string)
    requires Ordinary(origin, chatOf) && Layout(origin, PlanOf(origin, chatOf), moved, disk)
    requires Harmless(origin, chatOf, name)
    ensures if FlatMove(disk, name).None? || Rename(disk, [name], FlatMove(disk, name).value) == disk then
              Moves(origin, chatOf, [name]) ==> [name] in moved
            else
              && Moves(origin, chatOf, [name]) && [name] !in moved
              && FlatMove(disk, name).value == Dest(origin, chatOf, [name])
  {
    if [name] in disk {
      KindOfEntry(origin, chatOf, moved, disk, name);
      if Moves(origin, chatOf, [name]) {
        PlanIsSound(origin, chatOf);
        RenameKeepsLayout(origin, PlanOf(origin, chatOf), moved, disk, [name]);
      }
    } else if FlatMove(disk, name).Some? {
      MediaChatStays(origin, chatOf, moved, disk, name);
    }
  }

  function TrimEnd(name: string, suffix: string): string
    requires suffix != ""
  {
    if EndsWith(name, suffix) then TrimEnd(Strip(name, suffix), suffix) else name
  }

  /** What the fan-out finds about a meta file that is still in the shared directory. */
  lemma MetaMoves(origin: Disk, chatOf: string -> Option<string>, moved: set<Path>, disk: Disk, name: string)
    requires Ordinary(origin, chatOf) && Layout(origin, PlanOf(origin, chatOf), moved, disk)
    requires EndsWith(name, ".meta.json")
    ensures var meta := ["artefacts", name];
            if meta !in disk then Moves(origin, chatOf, meta) ==> meta in moved
            else
              && meta == MetaPath(TrimEnd(name, ".meta.json")) && disk[meta].File?
              && meta in origin && meta !in moved && disk[meta] == origin[meta]
  {
    var meta := ["artefacts", name];
    if meta in disk {
      Unmoved(origin, chatOf, moved, disk, meta);
      assert TrimEnd(name, ".meta.json") == Strip(name, ".meta.json");
    }
  }

  lemma LastOfMeta(name: string)
    requires EndsWith(name, ".meta.json")
    ensures name[|name| - 1] == 'n'
  {
    assert name[|name| - 10..][9] == name[|name| - 1];
  }

  /** The meta file's chat decides where both files of the artefact go. */
  lemma ArtefactTargets(origin: Disk, chatOf: string -> Option<string>, id: string)
    requires MetaPath(id) in origin && origin[MetaPath(id)].File?
    ensures var chat := chatOf(origin[MetaPath(id)].content);
            && (Moves(origin, chatOf, MetaPath(id)) <==> chat.Some?)
            && (chat.Some? ==> Dest(origin, chatOf, MetaPath(id)) == [chat.value, "artefacts", id + ".meta.json"])
            && (chat.Some? && BodyPath(id) in origin ==>
                  Moves(origin, chatOf, BodyPath(id))
                  && Dest(origin, chatOf, BodyPath(id)) == [chat.value, "artefacts", id + ".body"])
  {
    assert Strip(id + ".meta.json", ".meta.json") == id;
    assert Strip(id + ".body", ".body") == id;
    assert (id + ".body")[|id| + 4] == 'y';
    if EndsWith(id + ".body", ".meta.json") {
      LastOfMeta(id + ".body");
    }
  }

  lemma BodyStands(origin: Disk, chatOf: string -> Option<string>, moved: set<Path>, disk: Disk, id: string)
    requires Layout(origin, PlanOf(origin, chatOf), moved, disk)
    ensures BodyPath(id) in disk <==> BodyPath(id) in origin && BodyPath(id) !in moved
  {
    if BodyPath(id) in disk {
      Unmoved(origin, chatOf, moved, disk, BodyPath(id));
    }
  }

  function ArtefactId(name: string): string {
    if EndsWith(name, ".meta.json") then Strip(name, ".meta.json")
    else if EndsWith(name, ".body") then Strip(name, ".body")
    else ""
  }

  lemma SharedFollowsMeta(origin: Disk, chatOf: string -> Option<string>, moved: set<Path>, p: Path)
    requires BodiesFirst(origin, moved) && Moves(origin, chatOf, p) && |p| == 2
    ensures var meta := MetaPath(ArtefactId(p[1])); Moves(origin, chatOf, meta) && (meta in moved ==> p in moved)
  {
    assert p == ["artefacts", p[1]];
    var id := ArtefactId(p[1]);
    ArtefactTargets(origin, chatOf, id);
    assert p == MetaPath(id) || p == BodyPath(id);
  }

  ghost predicate FlatDone(origin: Disk, chatOf: string -> Option<string>, moved: set<Path>, name: string) {
    Moves(origin, chatOf, [name]) ==> [name] in moved
  }

  ghost predicate SharedDone(origin: Disk, chatOf: string -> Option<string>, moved: set<Path>, name: string) {
    EndsWith(name, ".meta.json") && Moves(origin, chatOf, ["artefacts", name]) ==> ["artefacts", name] in moved
  }

  ghost predicate FlatListed(origin: Disk, chatOf: string -> Option<string>, moved: set<Path>, names: seq<string>) {
    forall name | Moves(origin, chatOf, [name]) && [name] !in moved :: name in names
  }

  ghost predicate SharedListed(origin: Disk, chatOf: string -> Option<string>, moved: set<Path>, names: seq<string>) {
    forall name | Moves(origin, chatOf, ["artefacts", name]) && ["artefacts", name] !in moved :: name in names
  }

  lemma FlatNamesAreListed(
    origin: Disk, chatOf: string -> Option<string>, moved: set<Path>, disk: Disk, names: seq<string>)
    requires Layout(origin, PlanOf(origin, chatOf), moved, disk)
    requires forall p | p in disk && Within([], p) :: p[0] in names
    ensures FlatListed(origin, chatOf, moved, names)
  {
    forall name | Moves(origin, chatOf, [name]) && [name] !in moved
      ensures name in names
    {
      assert [name] in disk && Within([], [name]) && [name][0] == name;
    }
  }

  lemma SharedNamesAreListed(
    origin: Disk, chatOf: string -> Option<string>, moved: set<Path>, disk: Disk, names: seq<string>)
    requires Layout(origin, PlanOf(origin, chatOf), moved, disk)
    requires forall p | p in disk && Within(["artefacts"], p) :: p[1] in names
    ensures SharedListed(origin, chatOf, moved, names)
  {
    forall name | Moves(origin, chatOf, ["artefacts", name]) && ["artefacts", name] !in moved
      ensures name in names
    {
      var p := ["artefacts", name];
      assert p in disk && p[..1] == ["artefacts"] && p[1] == name;
    }
  }

  lemma AllFlatMoved(
    origin: Disk, chatOf: string -> Option<string>, before: set<Path>, moved: set<Path>, names: seq<string>)
    requires FlatListed(origin, chatOf, before, names) && before <= moved
    requires forall k | 0 <= k < |names| :: FlatDone(origin, chatOf, moved, names[k])
    ensures forall p | Moves(origin, chatOf, p) && |p| == 1 :: p in moved
  {
    forall p | Moves(origin, chatOf, p) && |p| == 1
      ensures p in moved
    {
      assert p == [p[0]];
      assert FlatDone(origin, chatOf, moved, p[0]);
    }
  }

  lemma AllSharedMoved(
    origin: Disk, chatOf: string -> Option<string>, before: set<Path>, moved: set<Path>, names: seq<string>)
    requires BodiesFirst(origin, moved)
    requires SharedListed(origin, chatOf, before, names) && before <= moved
    requires forall k | 0 <= k < |names| :: SharedDone(origin, chatOf, moved, names[k])
    ensures forall p | Moves(origin, chatOf, p) && |p| == 2 :: p in moved
  {
    hide Moves, BodiesFirst;
    forall p | Moves(origin, chatOf, p) && |p| == 2
      ensures p in moved
    {
      SharedFollowsMeta(origin, chatOf, moved, p);
      var meta := ArtefactId(p[1]) + ".meta.json";
      assert SharedDone(origin, chatOf, moved, meta);
    }
  }

  lemma BodyIsNoMeta(id: string)
    ensures forall other :: BodyPath(id) != MetaPath(other)
    ensures forall other | MetaPath(other) == MetaPath(id) :: other == id
  {
    assert BodyPath(id)[1][|id| + 4] == 'y';
    forall other: string
      ensures BodyPath(id) != MetaPath(other)
      ensures MetaPath(other) == MetaPath(id) ==> other == id
    {
      assert MetaPath(other)[1][|other| + 9] == 'n';
      assert MetaPath(other)[1][..|other|] == other && MetaPath(id)[1][..|id|] == id;
    }
  }

  lemma MovedWithinMovable(origin: Disk, chatOf: string -> Option<string>, moved: set<Path>, disk: Disk)
    requires Layout(origin, PlanOf(origin, chatOf), moved, disk)
    ensures moved <= Movable(origin, chatOf) && |moved| <= |Movable(origin, chatOf)|
    ensures (forall p | Moves(origin, chatOf, p) && |p| == 1 :: p in moved)
            && (forall p | Moves(origin, chatOf, p) && |p| == 2 :: p in moved)
            ==> moved == Movable(origin, chatOf)
  {
    forall p | p in moved
      ensures p in Movable(origin, chatOf)
    {
      assert Moves(origin, chatOf, p);
    }
    SubsetIsNoLarger(moved, Movable(origin, chatOf));
    forall p | p in Movable(origin, chatOf)
      ensures Moves(origin, chatOf, p) && (|p| == 1 || |p| == 2)
    {
    }
  }

  lemma SubsetIsNoLarger<T>(a: set<T>, b: set<T>)
    requires a <= b
    ensures |a| <= |b|
  {
    if a != {} {
      var x :| x in a;
      SubsetIsNoLarger(a - {x}, b - {x});
    }
  }

  lemma CurrentMeansDone(origin: Disk, chatOf: string -> Option<string>, moved: set<Path>, disk: Disk)
    requires Layout(origin, PlanOf(origin, chatOf), moved, disk) && BodiesFirst(origin, moved)
    ensures DefaultVersion(disk) != 0 ==> moved == Movable(origin, chatOf)
  {
    RestIsMovable(origin, chatOf, moved, disk);
    forall p | p in Movable(disk, chatOf)
      ensures DefaultVersion(disk) == 0
    {
      WorkKeepsVersionZero(disk, chatOf, p);
    }
    MovedWithinMovable(origin, chatOf, moved, disk);
  }
}
