/** The root directory: how it is classified, initialized and discarded, with
    every file operation a point where the process may stop. */
module PlainRoot {
  import opened Wrappers
  import Sets

  const MANIFEST_TEXT: string := "format = \"eliot-plain-root\"\nversion = 1\n"
  const MARKER_TEXT: string := "eliot-plain-root-initializing-v1\n"
  const MAX_ROOT_ENTRIES: nat := 32
  const MAX_CONTROL_ENTRIES: nat := 16
  const MAX_MANIFEST_BYTES: nat := 4096
  const MAX_MARKER_BYTES: nat := 256

  datatype Name =
    | Lock | Manifest | Marker | Objects | ControlDir | MarkerStage | ManifestStage | Importing | ArchiveComplete
    | Foreign(n: nat)

  /** The control database as its own checks see it. */
  datatype Db = ZeroLength | FreshDb | UsedDb | DamagedDb

  datatype Child = DbName | OtherChild(n: nat)
  datatype ChildNode = DbFile(db: Db) | NotAFile
  datatype Node = File(content: string) | Folder(children: map<Child, ChildNode>) | Special

  type Dir = map<Name, Node>

  /** The path of the root: nothing, a directory, or something else. */
  datatype Root = Nothing | Directory(dir: Dir) | NotADirectory

  datatype Status =
    | Absent | Empty | IncompleteInitialization | Current | Corrupt | Unsupported | Archive | IncompleteImport

  datatype Error = Refused(status: Status) | TooLarge | UnsupportedEntry | WrongState | AlreadyExists | Stopped

  function StatusError(status: Status): Error {
    match status
    case Empty => WrongState
    case IncompleteInitialization => WrongState
    case Current => AlreadyExists
    case _ => Refused(status)
  }

  // ------------------------------------------------------ classification

  predicate IsFile(d: Dir, name: Name) {
    name in d && d[name].File?
  }

  predicate IsFolder(d: Dir, name: Name) {
    name in d && d[name].Folder?
  }

  function ReadBounded(d: Dir, name: Name, maximum: nat): Result<Option<string>, Error> {
    if name !in d then Ok(None)
    else if !d[name].File? then Err(UnsupportedEntry)
    else if |d[name].content| > maximum then Err(TooLarge)
    else Ok(Some(d[name].content))
  }

  /** Whether a metadata stage is absent or holds its own bytes, or with
      `partial` some leading part of them. */
  function StageMatches(d: Dir, name: Name, expected: string, partial: bool): Result<bool, Error> {
    if name !in d then Ok(true)
    else if !d[name].File? then Ok(false)
    else if |d[name].content| > |expected| then Err(TooLarge)
    else Ok(if partial then d[name].content <= expected else d[name].content == expected)
  }

  /** Bytes of a metadata file that must be exactly the expected ones. */
  function Expect(d: Dir, name: Name, maximum: nat, expected: string): Result<bool, Error> {
    match ReadBounded(d, name, maximum)
    case Ok(Some(content)) => Ok(content == expected)
    case Ok(None) => Ok(false)
    case Err(UnsupportedEntry) => Ok(false)
    case Err(e) => Err(e)
  }

  const COMMITTED_NAMES: set<Name> := {Lock, Manifest, Marker, Objects, ControlDir, MarkerStage, ManifestStage}
  const INCOMPLETE_NAMES: set<Name> := {Lock, Marker, Objects, ControlDir, MarkerStage, ManifestStage}

  function ClassifyCommitted(d: Dir): Result<Status, Error> {
    if !(d.Keys <= COMMITTED_NAMES) then Ok(Unsupported)
    else
      var manifest :- Expect(d, Manifest, MAX_MANIFEST_BYTES, MANIFEST_TEXT);
      if !manifest then Ok(Unsupported)
      else
        var marker :- if Marker in d then Expect(d, Marker, MAX_MARKER_BYTES, MARKER_TEXT) else Ok(true);
        if !marker then Ok(Unsupported)
        else if (MarkerStage in d || ManifestStage in d) && Marker !in d then Ok(Unsupported)
        else
          var first :- StageMatches(d, MarkerStage, MARKER_TEXT, false);
          if !first then Ok(Unsupported)
          else
            var second :- StageMatches(d, ManifestStage, MANIFEST_TEXT, false);
            if !second then Ok(Unsupported)
            else if !IsFile(d, Lock) || !IsFolder(d, Objects) || !IsFolder(d, ControlDir) then Ok(Corrupt)
            else ClassifyControl(d[ControlDir].children)
  }

  function ClassifyControl(children: map<Child, ChildNode>): Result<Status, Error> {
    if |children| > MAX_CONTROL_ENTRIES then Err(TooLarge)
    else if children.Keys == {} then Ok(Corrupt)
    else if children.Keys != {DbName} then Ok(Unsupported)
    else
      match children[DbName]
      case NotAFile => Ok(Corrupt)
      case DbFile(ZeroLength) => Ok(Corrupt)
      case DbFile(DamagedDb) => Ok(Corrupt)
      case DbFile(_) => Ok(Current)
  }

  function ClassifyIncomplete(d: Dir, probe: bool): Result<Status, Error> {
    if d.Keys == {Lock} then Ok(if IsFile(d, Lock) then IncompleteInitialization else Unsupported)
    else if Marker !in d then
      if d.Keys == {Lock, MarkerStage} && IsFile(d, Lock) then
        var stage :- StageMatches(d, MarkerStage, MARKER_TEXT, true);
        Ok(if stage then IncompleteInitialization else Unsupported)
      else Ok(Unsupported)
    else if !(d.Keys <= INCOMPLETE_NAMES) then Ok(Unsupported)
    else
      var marker :- Expect(d, Marker, MAX_MARKER_BYTES, MARKER_TEXT);
      if !marker then Ok(Unsupported)
      else
        var first :- StageMatches(d, MarkerStage, MARKER_TEXT, false);
        if !first then Ok(Unsupported)
        else
          var second :- StageMatches(d, ManifestStage, MANIFEST_TEXT, true);
          if !second then Ok(Unsupported)
          else if !IsFile(d, Lock) then Ok(Corrupt)
          else if Objects in d && !IsFolder(d, Objects) then Ok(Unsupported)
          else if Objects in d && d[Objects].children != map[] then Ok(Corrupt)
          else if ControlDir in d then
            if !IsFolder(d, ControlDir) then Ok(Unsupported)
            else ProbeControl(d[ControlDir].children, probe)
          else Ok(IncompleteInitialization)
  }

  function ProbeControl(children: map<Child, ChildNode>, probe: bool): Result<Status, Error> {
    if |children| > MAX_CONTROL_ENTRIES then Err(TooLarge)
    else if !(children.Keys <= {DbName}) then Ok(Unsupported)
    else if DbName in children then
      match children[DbName]
      case NotAFile => Ok(Unsupported)
      case DbFile(db) => Ok(if probe && (db.UsedDb? || db.DamagedDb?) then Corrupt else IncompleteInitialization)
    else Ok(IncompleteInitialization)
  }

  function Classify(root: Root, probe: bool): Result<Status, Error> {
    match root
    case Nothing => Ok(Absent)
    case NotADirectory => Ok(Unsupported)
    case Directory(d) =>
      if |d| > MAX_ROOT_ENTRIES then Err(TooLarge)
      else if d == map[] then Ok(Empty)
      else if exists name :: name in d && d[name].Special? then Ok(Unsupported)
      else if Importing in d then Ok(if IsFile(d, Importing) then IncompleteImport else Unsupported)
      else if ArchiveComplete in d then Ok(if IsFile(d, ArchiveComplete) then Archive else Unsupported)
      else if Manifest in d then ClassifyCommitted(d)
      else ClassifyIncomplete(d, probe)
  }

  /** A state a stopped process may leave: never corrupt, never foreign. */
  predicate Recoverable(root: Root) {
    && Classify(root, true).Ok? && Classify(root, true).value in {Absent, Empty, IncompleteInitialization, Current}
    && Classify(root, false) == Classify(root, true)
  }

  // ------------------------------------------------------------- phases

  predicate EmptyObjects(d: Dir) {
    Objects in d ==> d[Objects] == Folder(map[])
  }

  /** The control directory is absent, empty, or holds an empty database. */
  predicate UnusedControl(d: Dir) {
    ControlDir in d ==>
      || d[ControlDir] == Folder(map[])
      || d[ControlDir] == Folder(map[DbName := DbFile(ZeroLength)])
      || d[ControlDir] == Folder(map[DbName := DbFile(FreshDb)])
  }

  predicate LockOnly(d: Dir) {
    d.Keys == {Lock} && IsFile(d, Lock)
  }

  /** Before the marker: the lock and some leading part of the marker's stage. */
  predicate Staging(d: Dir) {
    && d.Keys == {Lock, MarkerStage} && IsFile(d, Lock) && IsFile(d, MarkerStage)
    && d[MarkerStage].content <= MARKER_TEXT
  }

  /** After the marker and before the manifest. */
  predicate Marked(d: Dir) {
    && {Lock, Marker} <= d.Keys <= INCOMPLETE_NAMES
    && IsFile(d, Lock) && d[Marker] == File(MARKER_TEXT)
    && (MarkerStage in d ==> d[MarkerStage] == File(MARKER_TEXT))
    && (ManifestStage in d ==> IsFile(d, ManifestStage) && d[ManifestStage].content <= MANIFEST_TEXT)
    && EmptyObjects(d) && UnusedControl(d)
  }

  /** After the manifest. */
  predicate Committed(d: Dir) {
    && {Lock, Marker, Manifest, Objects, ControlDir} <= d.Keys <= COMMITTED_NAMES
    && IsFile(d, Lock) && d[Marker] == File(MARKER_TEXT) && d[Manifest] == File(MANIFEST_TEXT)
    && IsFolder(d, Objects)
    && d[ControlDir] == Folder(map[DbName := DbFile(FreshDb)])
    && (MarkerStage in d ==> d[MarkerStage] == File(MARKER_TEXT))
    && (ManifestStage in d ==> d[ManifestStage] == File(MANIFEST_TEXT))
  }

  lemma SmallDir(d: Dir)
    requires d.Keys <= COMMITTED_NAMES
    ensures |d| <= 7
  {
    Sets.SubsetSize(d.Keys, COMMITTED_NAMES);
    assert |d| == |d.Keys|;
  }

  lemma TextsFit()
    ensures |MANIFEST_TEXT| <= MAX_MANIFEST_BYTES && |MARKER_TEXT| <= MAX_MARKER_BYTES
    ensures MANIFEST_TEXT != "" && MARKER_TEXT != ""
  {
  }

  lemma MarkedReads(d: Dir)
    requires Marked(d)
    ensures Expect(d, Marker, MAX_MARKER_BYTES, MARKER_TEXT) == Ok(true)
    ensures StageMatches(d, MarkerStage, MARKER_TEXT, false) == Ok(true)
    ensures StageMatches(d, ManifestStage, MANIFEST_TEXT, true) == Ok(true)
    ensures ControlDir in d ==> IsFolder(d, ControlDir)
  {
    TextsFit();
  }

  lemma UnusedProbes(d: Dir, probe: bool)
    requires UnusedControl(d) && ControlDir in d
    ensures IsFolder(d, ControlDir) && ProbeControl(d[ControlDir].children, probe) == Ok(IncompleteInitialization)
  {
  }

  lemma MarkedProbe(d: Dir, probe: bool)
    requires Marked(d)
    ensures Classify(Directory(d), probe) == Ok(IncompleteInitialization)
  {
    SmallDir(d);
    MarkedReads(d);
    if ControlDir in d { UnusedProbes(d, probe); }
    hide Expect, StageMatches, ProbeControl, UnusedControl;
  }

  lemma MarkedStatus(d: Dir)
    requires Marked(d)
    ensures Classify(Directory(d), true) == Ok(IncompleteInitialization) == Classify(Directory(d), false)
  {
    hide Marked, Classify;
    MarkedProbe(d, true);
    MarkedProbe(d, false);
  }

  lemma CommittedStatus(d: Dir)
    requires Committed(d)
    ensures Classify(Directory(d), true) == Ok(Current) == Classify(Directory(d), false)
  {
    SmallDir(d);
    TextsFit();
  }

  lemma EarlyStatus(d: Dir)
    requires LockOnly(d) || Staging(d)
    ensures Classify(Directory(d), true) == Ok(IncompleteInitialization) == Classify(Directory(d), false)
  {
    SmallDir(d);
    TextsFit();
  }

  // ------------------------------------------------ what each status means

  /** A root that may be opened: only its own names, the exact manifest, a
      marker and stages with their exact bytes if they are still there, the
      lock, both directories, and one database that is not damaged. */
  predicate Openable(d: Dir) {
    && {Lock, Manifest, Objects, ControlDir} <= d.Keys <= COMMITTED_NAMES
    && IsFile(d, Lock) && d[Manifest] == File(MANIFEST_TEXT)
    && IsFolder(d, Objects)
    && (d[ControlDir] == Folder(map[DbName := DbFile(FreshDb)]) || d[ControlDir] == Folder(map[DbName := DbFile(UsedDb)]))
    && (Marker in d ==> d[Marker] == File(MARKER_TEXT))
    && (MarkerStage in d ==> Marker in d && d[MarkerStage] == File(MARKER_TEXT))
    && (ManifestStage in d ==> Marker in d && d[ManifestStage] == File(MANIFEST_TEXT))
  }

  lemma ControlIsCurrent(children: map<Child, ChildNode>)
    ensures ClassifyControl(children) == Ok(Current) <==>
              children == map[DbName := DbFile(FreshDb)] || children == map[DbName := DbFile(UsedDb)]
  {
    if ClassifyControl(children) == Ok(Current) {
      assert children == map[DbName := children[DbName]];
    }
  }

  lemma CommittedIsCurrent(d: Dir)
    requires Manifest in d
    ensures ClassifyCommitted(d) == Ok(Current) <==> Openable(d)
  {
    TextsFit();
    if IsFolder(d, ControlDir) {
      ControlIsCurrent(d[ControlDir].children);
      assert d[ControlDir] == Folder(d[ControlDir].children);
    }
    hide ClassifyControl;
  }

  /** A root is current exactly when it may be opened, whatever the probe. */
  lemma CurrentIsOpenable(root: Root, probe: bool)
    ensures Classify(root, probe) == Ok(Current) <==> root.Directory? && Openable(root.dir)
  {
    if root.Directory? {
      var d := root.dir;
      if Openable(d) { SmallDir(d); }
      if Manifest in d { CommittedIsCurrent(d); }
      else { ProbeNotCurrent(d, probe); }
      hide ClassifyCommitted, ClassifyIncomplete;
    }
  }

  lemma ProbeNotCurrent(d: Dir, probe: bool)
    ensures ClassifyIncomplete(d, probe) != Ok(Current)
  {
  }

  /** Whatever is stored in an opened root, it stays current. */
  lemma UseKeepsCurrent(d: Dir, db: Db, objects: map<Child, ChildNode>, probe: bool)
    requires Classify(Directory(d), probe) == Ok(Current) && (db.FreshDb? || db.UsedDb?)
    ensures Classify(Directory(d[ControlDir := Folder(map[DbName := DbFile(db)])][Objects := Folder(objects)]), probe)
            == Ok(Current)
  {
    hide Classify;
    CurrentIsOpenable(Directory(d), probe);
    CurrentIsOpenable(Directory(d[ControlDir := Folder(map[DbName := DbFile(db)])][Objects := Folder(objects)]), probe);
  }

  /** Every state of the two operations, whatever the phase, is recoverable. */
  predicate Phased(root: Root) {
    match root
    case Nothing => true
    case NotADirectory => false
    case Directory(d) => d == map[] || LockOnly(d) || Staging(d) || Marked(d) || Committed(d)
  }

  lemma PhasedIsRecoverable(root: Root)
    requires Phased(root)
    ensures Recoverable(root)
    ensures root.Directory? && Committed(root.dir) <==> Classify(root, true) == Ok(Current)
  {
    if root.Directory? && root.dir != map[] {
      var d := root.dir;
      hide Classify, Marked, Committed, Staging, LockOnly;
      if LockOnly(d) || Staging(d) { EarlyStatus(d); EarlyPhases(d); }
      else if Marked(d) { MarkedStatus(d); MarkedPhase(d); }
      else { CommittedStatus(d); }
    }
  }

  lemma EarlyPhases(d: Dir)
    requires LockOnly(d) || Staging(d)
    ensures !Committed(d)
  {
  }

  lemma MarkedPhase(d: Dir)
    requires Marked(d)
    ensures !Committed(d)
  {
  }

  /** An initialization recognized under the lock is in one of the phases. */
  lemma IncompleteIsPhased(d: Dir)
    requires Classify(Directory(d), true) == Ok(IncompleteInitialization)
    ensures LockOnly(d) || Staging(d) || Marked(d)
  {
    assert ControlDir in d && Marker in d ==>
        (d[ControlDir].Folder? && (d[ControlDir].children == map[] || d[ControlDir].children.Keys == {DbName}));
    if ControlDir in d && Marker in d && d[ControlDir].children.Keys == {DbName} {
      assert d[ControlDir].children == map[DbName := d[ControlDir].children[DbName]];
    }
  }

  /** Every entry has a kind the root may have, and there are not too many. */
  predicate Supported(d: Dir) {
    |d| <= MAX_ROOT_ENTRIES && forall name :: name in d ==> !d[name].Special?
  }

  /** The other statuses, by what the root holds. */
  lemma StatusMeans(root: Root)
    ensures Classify(root, true) == Ok(Absent) <==> root == Nothing
    ensures Classify(root, true) == Ok(Empty) <==> root == Directory(map[])
    ensures Classify(root, true) == Ok(IncompleteInitialization) <==>
              root.Directory? && (LockOnly(root.dir) || Staging(root.dir) || Marked(root.dir))
    ensures Classify(root, true) == Ok(IncompleteImport) <==>
              root.Directory? && Supported(root.dir) && IsFile(root.dir, Importing)
    ensures Classify(root, true) == Ok(Archive) <==>
              root.Directory? && Supported(root.dir) && Importing !in root.dir && IsFile(root.dir, ArchiveComplete)
  {
    if root.Directory? {
      var d := root.dir;
      if Classify(root, true) == Ok(IncompleteInitialization) { IncompleteIsPhased(d); }
      if LockOnly(d) || Staging(d) { EarlyStatus(d); }
      else if Marked(d) { MarkedStatus(d); }
      OwnStatus(d);
      hide LockOnly, Staging, Marked, ClassifyCommitted, ClassifyIncomplete;
    }
  }

  predicate IsOpenable(root: Root) {
    root.Directory? && Openable(root.dir)
  }

  /** What initialization may start from or go on with. */
  predicate Unfinished(root: Root) {
    root == Nothing || root == Directory(map[])
    || (root.Directory? && (LockOnly(root.dir) || Staging(root.dir) || Marked(root.dir)))
  }

  lemma OwnStatus(d: Dir)
    ensures ClassifyCommitted(d) != Ok(Absent) && ClassifyIncomplete(d, true) != Ok(Absent)
    ensures ClassifyCommitted(d) != Ok(Empty) && ClassifyIncomplete(d, true) != Ok(Empty)
    ensures ClassifyCommitted(d) != Ok(IncompleteImport) && ClassifyIncomplete(d, true) != Ok(IncompleteImport)
    ensures ClassifyCommitted(d) != Ok(Archive) && ClassifyIncomplete(d, true) != Ok(Archive)
  {
  }

  // ---------------------------------------------------------- operations

  /** One file operation: the root directory appears, or exactly one of its
      entries is created, extended, linked, rewritten or removed. */
  predicate OneOperation(before: Root, after: Root) {
    match after
    case Directory(d) =>
      (match before
       case Nothing => d == map[]
       case Directory(old_) =>
         (exists name :: name in d && d == old_[name := d[name]]) || (exists name :: name in old_ && d == old_ - {name})
       case NotADirectory => false)
    case _ => false
  }

  lemma SameReads(d: Dir, e: Dir, name: Name, maximum: nat, text: string, partial: bool)
    requires (name in d <==> name in e) && (name in d ==> d[name] == e[name])
    ensures Expect(d, name, maximum, text) == Expect(e, name, maximum, text)
    ensures StageMatches(d, name, text, partial) == StageMatches(e, name, text, partial)
  {
  }

  lemma CommittedWithoutStage(d: Dir, name: Name)
    requires ClassifyCommitted(d) == Ok(Current) && (name == MarkerStage || name == ManifestStage)
    ensures ClassifyCommitted(d - {name}) == Ok(Current)
  {
    var e := d - {name};
    SameReads(d, e, Manifest, MAX_MANIFEST_BYTES, MANIFEST_TEXT, false);
    SameReads(d, e, Marker, MAX_MARKER_BYTES, MARKER_TEXT, false);
    if name == MarkerStage { SameReads(d, e, ManifestStage, MAX_MANIFEST_BYTES, MANIFEST_TEXT, false); }
    else { SameReads(d, e, MarkerStage, MAX_MARKER_BYTES, MARKER_TEXT, false); }
    hide Expect, ClassifyControl;
  }

  /** Removing a leftover stage from a current root leaves it current. */
  lemma CurrentWithoutStage(d: Dir, name: Name)
    requires Classify(Directory(d), false) == Ok(Current) && (name == MarkerStage || name == ManifestStage)
    ensures Recoverable(Directory(d - {name})) && Classify(Directory(d - {name}), false) == Ok(Current)
  {
    var e := d - {name};
    assert ClassifyCommitted(d) == Ok(Current) && Manifest in d by { hide ClassifyCommitted; IncompleteNotCurrent(d); }
    CommittedWithoutStage(d, name);
    assert e.Keys <= COMMITTED_NAMES && Manifest in e by { hide Expect, StageMatches, ClassifyControl; }
    SmallDir(e);
    hide ClassifyCommitted;
  }

  lemma IncompleteNotCurrent(d: Dir)
    ensures ClassifyIncomplete(d, false) != Ok(Current)
  {
    hide Expect, StageMatches;
  }

  /** What publishing one metadata file passes through, from a directory
      without its stage: every partial stage, the completed link beside it,
      and the link alone. */
  predicate Publishable(base: Dir, dest: Name, stage: Name, text: string) {
    && dest !in base && stage !in base && dest != stage
    && (forall k :: 0 <= k <= |text| ==> Recoverable(Directory(base[stage := File(text[..k])])))
    && Recoverable(Directory(base))
    && Recoverable(Directory(base[stage := File(text)][dest := File(text)]))
    && Recoverable(Directory(base[dest := File(text)]))
  }

  lemma MarkerPublishable(d: Dir)
    requires LockOnly(d)
    ensures Publishable(d, Marker, MarkerStage, MARKER_TEXT)
    ensures Marked(d[Marker := File(MARKER_TEXT)])
  {
    hide Recoverable, Classify;
    forall k | 0 <= k <= |MARKER_TEXT| ensures Recoverable(Directory(d[MarkerStage := File(MARKER_TEXT[..k])])) {
      assert Staging(d[MarkerStage := File(MARKER_TEXT[..k])]);
      PhasedIsRecoverable(Directory(d[MarkerStage := File(MARKER_TEXT[..k])]));
    }
    assert Marked(d[MarkerStage := File(MARKER_TEXT)][Marker := File(MARKER_TEXT)]);
    assert Marked(d[Marker := File(MARKER_TEXT)]);
    PhasedIsRecoverable(Directory(d));
    PhasedIsRecoverable(Directory(d[MarkerStage := File(MARKER_TEXT)][Marker := File(MARKER_TEXT)]));
    PhasedIsRecoverable(Directory(d[Marker := File(MARKER_TEXT)]));
  }

  /** Everything but the manifest is in place. */
  predicate ReadyToCommit(d: Dir) {
    && Marked(d) && MarkerStage !in d && ManifestStage !in d
    && Objects in d && ControlDir in d && d[ControlDir] == Folder(map[DbName := DbFile(FreshDb)])
  }

  lemma ManifestPublishable(d: Dir)
    requires ReadyToCommit(d)
    ensures Publishable(d, Manifest, ManifestStage, MANIFEST_TEXT)
    ensures Committed(d[Manifest := File(MANIFEST_TEXT)])
  {
    hide Recoverable, Classify;
    forall k | 0 <= k <= |MANIFEST_TEXT| ensures Recoverable(Directory(d[ManifestStage := File(MANIFEST_TEXT[..k])])) {
      assert Marked(d[ManifestStage := File(MANIFEST_TEXT[..k])]);
      PhasedIsRecoverable(Directory(d[ManifestStage := File(MANIFEST_TEXT[..k])]));
    }
    assert Committed(d[ManifestStage := File(MANIFEST_TEXT)][Manifest := File(MANIFEST_TEXT)]);
    assert Committed(d[Manifest := File(MANIFEST_TEXT)]);
    PhasedIsRecoverable(Directory(d));
    PhasedIsRecoverable(Directory(d[ManifestStage := File(MANIFEST_TEXT)][Manifest := File(MANIFEST_TEXT)]));
    PhasedIsRecoverable(Directory(d[Manifest := File(MANIFEST_TEXT)]));
  }

  lemma RemoveStep(before: Root, name: Name)
    ensures before.Directory? && name in before.dir ==> OneOperation(before, Directory(before.dir - {name}))
  {
  }

  lemma PutStep(d: Dir, name: Name, node: Node)
    ensures OneOperation(Directory(d), Directory(d[name := node]))
  {
    var after := d[name := node];
    assert name in after && after == d[name := after[name]];
  }

  lemma StageStep(base: Dir, stage: Name, text: string, k: nat)
    requires k < |text|
    ensures var before := base[stage := File(text[..k])];
            before[stage := File(text[..k + 1])] == base[stage := File(text[..k + 1])]
  {
  }

  /** No other bytes stand in the way of a metadata file or of its stage. */
  predicate CanPublish(d: Dir, dest: Name, stage: Name, text: string) {
    && (dest in d ==> d[dest] == File(text))
    && StageMatches(d, stage, text, dest !in d) == Ok(true)
  }

  lemma LinkedReads(base: Dir, dest: Name, stage: Name, text: string, maximum: nat)
    requires dest !in base && stage !in base && dest != stage && |text| <= maximum
    ensures base[stage := File(text)] - {stage} == base
    ensures var linked := base[stage := File(text)][dest := File(text)];
            && ReadBounded(linked, dest, maximum) == Ok(Some(text))
            && StageMatches(linked, stage, text, false) == Ok(true)
            && linked - {stage} == base[dest := File(text)]
  {
  }

  // ------------------------------------------------- steps of the phases

  /** What the probe under the lock can change: only an unfinished root with a
      database in use turns out corrupt. */
  lemma ProbeRefines(root: Root)
    ensures Classify(root, false) == Ok(Current) <==> Classify(root, true) == Ok(Current)
    ensures Classify(root, true) == Ok(IncompleteInitialization) ==> Classify(root, false) == Ok(IncompleteInitialization)
  {
    hide ClassifyCommitted, Expect, StageMatches;
    if root.Directory? { ProbedControl(root.dir); }
  }

  lemma ProbedControl(d: Dir)
    ensures ClassifyIncomplete(d, false) != Ok(Current) && ClassifyIncomplete(d, true) != Ok(Current)
    ensures ClassifyIncomplete(d, true) == Ok(IncompleteInitialization) ==>
              ClassifyIncomplete(d, false) == Ok(IncompleteInitialization)
  {
    hide Expect, StageMatches;
  }

  lemma UnfinishedHasLock(d: Dir, probe: bool)
    requires ClassifyIncomplete(d, probe) == Ok(IncompleteInitialization)
    ensures IsFile(d, Lock)
  {
    hide Expect, StageMatches;
  }

  lemma CommittedAnswers(d: Dir)
    ensures ClassifyCommitted(d) !in {Ok(Absent), Ok(Empty), Ok(IncompleteInitialization)}
  {
    hide Expect, StageMatches;
  }

  lemma UnfinishedAnswers(d: Dir, probe: bool)
    ensures ClassifyIncomplete(d, probe) !in {Ok(Absent), Ok(Empty)}
  {
    hide Expect, StageMatches;
  }

  /** What each status says of the root itself. */
  lemma StatusShape(root: Root, probe: bool)
    ensures Classify(root, probe) == Ok(Absent) <==> root == Nothing
    ensures Classify(root, probe) == Ok(Empty) <==> root == Directory(map[])
    ensures Classify(root, probe) in {Ok(IncompleteInitialization), Ok(Current)} ==> root.Directory?
    ensures Classify(root, probe) == Ok(IncompleteInitialization) ==> IsFile(root.dir, Lock)
  {
    if root.Directory? {
      CommittedAnswers(root.dir);
      UnfinishedAnswers(root.dir, probe);
      hide ClassifyCommitted, ClassifyIncomplete;
      if Classify(root, probe) == Ok(IncompleteInitialization) { UnfinishedHasLock(root.dir, probe); }
    }
  }

  /** What a current root's files hold when a stage is left beside them. */
  lemma CurrentReads(d: Dir)
    requires Classify(Directory(d), false) == Ok(Current)
    ensures MarkerStage in d || ManifestStage in d ==> Expect(d, Marker, MAX_MARKER_BYTES, MARKER_TEXT) == Ok(true)
    ensures Expect(d, Manifest, MAX_MANIFEST_BYTES, MANIFEST_TEXT) == Ok(true)
    ensures StageMatches(d, MarkerStage, MARKER_TEXT, false) == Ok(true)
    ensures StageMatches(d, ManifestStage, MANIFEST_TEXT, false) == Ok(true)
  {
    IncompleteNotCurrent(d);
    hide Expect, StageMatches, ClassifyIncomplete, ClassifyControl;
  }

  lemma RootAppears()
    ensures OneOperation(Nothing, Directory(map[]))
  {
  }

  lemma LockAppears()
    ensures LockOnly(map[Lock := File("")])
  {
    assert map[Lock := File("")].Keys == {Lock};
  }

  /** Publishing the marker is possible from every unfinished directory. */
  lemma MarkerCanPublish(d: Dir)
    requires LockOnly(d) || Staging(d) || Marked(d)
    ensures CanPublish(d, Marker, MarkerStage, MARKER_TEXT)
    ensures Marker !in d ==> LockOnly(d - {MarkerStage}) && Publishable(d - {MarkerStage}, Marker, MarkerStage, MARKER_TEXT)
    ensures Marker in d ==> Recoverable(Directory(d - {MarkerStage}))
    ensures Marked((d - {MarkerStage})[Marker := File(MARKER_TEXT)])
  {
    hide Recoverable, Publishable, Classify;
    var e := d - {MarkerStage};
    if Marked(d) {
      assert Marked(e) && e == e[Marker := File(MARKER_TEXT)];
      PhasedIsRecoverable(Directory(e));
    } else {
      assert e.Keys == {Lock} && LockOnly(e);
      MarkerPublishable(e);
    }
  }

  lemma ManifestCanPublish(d: Dir)
    requires Marked(d) && MarkerStage !in d && Objects in d && ControlDir in d
    requires d[ControlDir] == Folder(map[DbName := DbFile(FreshDb)])
    ensures Manifest !in d && CanPublish(d, Manifest, ManifestStage, MANIFEST_TEXT)
    ensures Publishable(d - {ManifestStage}, Manifest, ManifestStage, MANIFEST_TEXT)
    ensures Committed((d - {ManifestStage})[Manifest := File(MANIFEST_TEXT)])
  {
    hide Recoverable, Publishable, Classify;
    assert ReadyToCommit(d - {ManifestStage});
    ManifestPublishable(d - {ManifestStage});
  }

  predicate FreshNode(name: Name, node: Node) {
    || ((name == Objects || name == ControlDir) && node == Folder(map[]))
    || (name == ControlDir && node == Folder(map[DbName := DbFile(ZeroLength)]))
    || (name == ControlDir && node == Folder(map[DbName := DbFile(FreshDb)]))
  }

  /** Store directories and the control database appear within the phase. */
  lemma StoreStep(d: Dir, name: Name, node: Node)
    requires Marked(d) && FreshNode(name, node)
    ensures Marked(d[name := node]) && Recoverable(Directory(d[name := node]))
    ensures OneOperation(Directory(d), Directory(d[name := node]))
  {
    hide Recoverable, Classify;
    assert Marked(d[name := node]);
    PhasedIsRecoverable(Directory(d[name := node]));
    PutStep(d, name, node);
  }

  /** Everything but the lock and the marker may go, in any order. */
  lemma DropStep(d: Dir, name: Name)
    requires Marked(d) && name != Lock && name != Marker
    ensures Marked(d - {name}) && Recoverable(Directory(d - {name}))
  {
    hide Recoverable, Classify;
    assert Marked(d - {name});
    PhasedIsRecoverable(Directory(d - {name}));
  }

  /** An unfinished root holds the exact marker only in the marked phase. */
  lemma MarkedFirst(d: Dir)
    ensures Marked(d) ==>
              && Classify(Directory(d), false) == Ok(IncompleteInitialization) == Classify(Directory(d), true)
              && ReadBounded(d, Marker, MAX_MARKER_BYTES) == Ok(Some(MARKER_TEXT))
    ensures LockOnly(d) || Staging(d) ==> ReadBounded(d, Marker, MAX_MARKER_BYTES) == Ok(None)
  {
    hide Classify;
    if Marked(d) { MarkedStatus(d); TextsFit(); }
  }

  lemma MarkerLast(d: Dir)
    requires Marked(d) && d.Keys * {MarkerStage, ManifestStage, Objects, ControlDir} == {}
    ensures LockOnly(d - {Marker}) && Recoverable(Directory(d - {Marker}))
  {
    hide Recoverable, Classify;
    var e := d - {Marker};
    assert e.Keys == {Lock} by {
      forall name | name in e ensures name == Lock {
        assert name in INCOMPLETE_NAMES && name !in {MarkerStage, ManifestStage, Objects, ControlDir, Marker};
      }
    }
    PhasedIsRecoverable(Directory(e));
  }

  class Disk {
    var root: Root
    /** Every state the disk has been in, oldest first. */
    ghost var trace: seq<Root>

    /** The trace is a run of single file operations that ends in `root`. */
    ghost predicate Valid()
      reads this
    {
      && trace != [] && root == trace[|trace| - 1]
      && forall i :: 0 < i < |trace| ==> OneOperation(trace[i - 1], trace[i])
    }

    /** Every state after `from` is recoverable, and nothing before changed. */
    ghost predicate SafeSince(from: seq<Root>)
      reads this
    {
      from <= trace && forall i :: |from| <= i < |trace| ==> Recoverable(trace[i])
    }

    constructor (root: Root)
      ensures Valid() && this.root == root && trace == [root]
    {
      this.root := root;
      trace := [root];
    }

    /** Performs one file operation. */
    method Apply(next: Root)
      requires Valid() && OneOperation(root, next) && Recoverable(next)
      modifies this
      ensures Valid() && root == next && trace == old(trace) + [next] && SafeSince(old(trace))
    {
      root := next;
      trace := trace + [next];
    }

    /** A check, or a failed system call, may end the operation here. */
    method MayStop(stops: bool) returns (stop: bool)
      ensures !stops ==> !stop
    {
      stop := false;
      if stops { stop := *; }
    }

    /** Removes a stage whose bytes are its own. */
    method RemoveStage(stage: Name, text: string, partial: bool, stops: bool) returns (r: Result<(), Error>)
      requires Valid() && root.Directory?
      requires stage in root.dir ==> Recoverable(Directory(root.dir - {stage}))
      modifies this
      ensures Valid() && SafeSince(old(trace)) && root.Directory?
      ensures r.Ok? ==> root.dir == old(root.dir) - {stage}
      ensures r.Err? ==> root == old(root)
      ensures !stops && StageMatches(old(root.dir), stage, text, partial) == Ok(true) ==> r.Ok?
    {
      hide Recoverable;
      RemoveStep(root, stage);
      hide OneOperation;
      var stop := MayStop(stops);
      if stop { return Err(Stopped); }
      var matches :- StageMatches(root.dir, stage, text, partial);
      if !matches { return Err(UnsupportedEntry); }
      if stage !in root.dir {
        assert root.dir - {stage} == root.dir;
        return Ok(());
      }
      Apply(Directory(root.dir - {stage}));
      return Ok(());
    }

    /** Ends a publication early: an error drops the temporary file, which
        removes it, and a crash leaves it. */
    method Abandon(stage: Name)
      requires Valid() && root.Directory?
      requires stage in root.dir ==> Recoverable(Directory(root.dir - {stage}))
      modifies this
      ensures Valid() && SafeSince(old(trace)) && root.Directory?
    {
      hide Recoverable;
      RemoveStep(root, stage);
      hide OneOperation;
      if * {
        if stage in root.dir { Apply(Directory(root.dir - {stage})); }
      }
    }

    /** Writes a stage byte by byte, beside everything else. */
    method WriteStage(stage: Name, text: string, stops: bool) returns (r: Result<(), Error>)
      requires Valid() && root.Directory? && stage !in root.dir && Recoverable(root)
      requires forall k :: 0 <= k <= |text| ==> Recoverable(Directory(root.dir[stage := File(text[..k])]))
      modifies this
      ensures Valid() && SafeSince(old(trace)) && root.Directory?
      ensures r.Ok? ==> root.dir == old(root.dir)[stage := File(text)]
      ensures !stops ==> r.Ok?
    {
      hide Recoverable, OneOperation;
      ghost var base := root.dir;
      var stop := MayStop(stops);
      if stop { return Err(Stopped); }
      PutStep(root.dir, stage, File(""));
      assert text[..0] == "";
      Apply(Directory(root.dir[stage := File("")]));
      var written := 0;
      while written < |text|
        invariant 0 <= written <= |text| && root == Directory(base[stage := File(text[..written])])
        invariant Valid() && SafeSince(old(trace))
      {
        stop := MayStop(stops);
        if stop {
          assert root.dir - {stage} == base;
          Abandon(stage);
          return Err(Stopped);
        }
        PutStep(root.dir, stage, File(text[..written + 1]));
        StageStep(base, stage, text, written);
        Apply(Directory(root.dir[stage := File(text[..written + 1])]));
        written := written + 1;
      }
      assert text[..written] == text;
      return Ok(());
    }

    /** Links the finished stage to its final name and unlinks the stage. */
    method Link(dest: Name, stage: Name, text: string, maximum: nat, stops: bool, ghost base: Dir)
      returns (r: Result<(), Error>)
      requires Valid() && root == Directory(base[stage := File(text)]) && |text| <= maximum
      requires Publishable(base, dest, stage, text)
      modifies this
      ensures Valid() && SafeSince(old(trace)) && root.Directory?
      ensures r.Ok? ==> root.dir == base[dest := File(text)]
      ensures !stops ==> r.Ok?
    {
      hide Recoverable, OneOperation, ReadBounded, StageMatches;
      LinkedReads(base, dest, stage, text, maximum);
      var stop := MayStop(stops);
      if stop {
        Abandon(stage);
        return Err(Stopped);
      }
      PutStep(root.dir, dest, File(text));
      Apply(Directory(root.dir[dest := File(text)]));
      stop := MayStop(stops);
      if stop { return Err(Stopped); }
      if ReadBounded(root.dir, dest, maximum) != Ok(Some(text)) { return Err(UnsupportedEntry); }
      r := RemoveStage(stage, text, false, stops);
    }

    /** Publishes one metadata file without replacing anything: a synced stage
        with its exact bytes is linked to the final name, then unlinked. */
    method Publish(dest: Name, stage: Name, text: string, maximum: nat, stops: bool) returns (r: Result<(), Error>)
      requires Valid() && root.Directory? && |text| <= maximum && dest != stage
      requires dest in root.dir && stage in root.dir ==> Recoverable(Directory(root.dir - {stage}))
      requires dest !in root.dir ==> Publishable(root.dir - {stage}, dest, stage, text)
      modifies this
      ensures Valid() && SafeSince(old(trace)) && root.Directory?
      ensures r.Ok? ==> root.dir == (old(root.dir) - {stage})[dest := File(text)]
      ensures r.Err? && dest in old(root.dir) ==> root == old(root)
      ensures !stops && CanPublish(old(root.dir), dest, stage, text) ==> r.Ok?
    {
      hide Recoverable, OneOperation, StageMatches;
      var existing :- ReadBounded(root.dir, dest, maximum);
      if existing.Some? {
        if existing.value != text { return Err(AlreadyExists); }
        assert root.dir - {stage} == (root.dir - {stage})[dest := File(text)];
        r := RemoveStage(stage, text, false, stops);
        return;
      }
      ghost var base := root.dir - {stage};
      var _ :- RemoveStage(stage, text, true, stops);
      var _ :- WriteStage(stage, text, stops);
      r := Link(dest, stage, text, maximum, stops, base);
    }

    /** Classifies the root as it stands, unless a check ends the operation. */
    method Inspect(probe: bool, stops: bool) returns (r: Result<Status, Error>)
      ensures r == Classify(root, probe) || (stops && r == Err(Stopped))
    {
      var stop := MayStop(stops);
      return if stop then Err(Stopped) else Classify(root, probe);
    }

    /** Opens the lock file, creating it in an empty root. */
    method AcquireLock(stops: bool) returns (r: Result<(), Error>)
      requires Valid() && root.Directory?
      requires Lock !in root.dir ==> root.dir == map[]
      modifies this
      ensures Valid() && SafeSince(old(trace)) && root.Directory?
      ensures r.Err? ==> root == old(root)
      ensures Lock in old(root.dir) ==> root == old(root)
      ensures r.Ok? && Lock !in old(root.dir) ==> LockOnly(root.dir)
      ensures !stops && (Lock in old(root.dir) ==> IsFile(old(root.dir), Lock)) ==> r.Ok?
    {
      hide Recoverable, OneOperation, Classify;
      var stop := MayStop(stops);
      if stop { return Err(Stopped); }
      if Lock in root.dir {
        return if root.dir[Lock].File? then Ok(()) else Err(UnsupportedEntry);
      }
      LockAppears();
      PhasedIsRecoverable(Directory(map[Lock := File("")]));
      PutStep(root.dir, Lock, File(""));
      Apply(Directory(root.dir[Lock := File("")]));
      return Ok(());
    }

    /** Creates one store directory unless it is there. */
    method EnsureFolder(name: Name, stops: bool) returns (r: Result<(), Error>)
      requires Valid() && root.Directory? && Marked(root.dir) && (name == Objects || name == ControlDir)
      modifies this
      ensures Valid() && SafeSince(old(trace)) && root.Directory? && Marked(root.dir)
      ensures r.Ok? ==> root.dir == if name in old(root.dir) then old(root.dir) else old(root.dir)[name := Folder(map[])]
      ensures !stops ==> r.Ok?
    {
      var stop := MayStop(stops);
      if stop { return Err(Stopped); }
      if name !in root.dir {
        hide Recoverable, OneOperation;
        StoreStep(root.dir, name, Folder(map[]));
        Apply(Directory(root.dir[name := Folder(map[])]));
      }
      return Ok(());
    }

    /** Creates the control database, or completes one left without contents. */
    method InitializeControl(stops: bool) returns (r: Result<(), Error>)
      requires Valid() && root.Directory? && Marked(root.dir) && ControlDir in root.dir
      modifies this
      ensures Valid() && SafeSince(old(trace)) && root.Directory? && Marked(root.dir)
      ensures r.Ok? ==> root.dir == old(root.dir)[ControlDir := Folder(map[DbName := DbFile(FreshDb)])]
      ensures !stops ==> r.Ok?
    {
      hide Recoverable, OneOperation;
      var stop := MayStop(stops);
      if stop { return Err(Stopped); }
      ghost var base := root.dir;
      if root.dir[ControlDir].children == map[] {
        StoreStep(root.dir, ControlDir, Folder(map[DbName := DbFile(ZeroLength)]));
        Apply(Directory(root.dir[ControlDir := Folder(map[DbName := DbFile(ZeroLength)])]));
        stop := MayStop(stops);
        if stop { return Err(Stopped); }
      }
      if root.dir[ControlDir].children[DbName] == DbFile(ZeroLength) {
        StoreStep(root.dir, ControlDir, Folder(map[DbName := DbFile(FreshDb)]));
        Apply(Directory(root.dir[ControlDir := Folder(map[DbName := DbFile(FreshDb)])]));
      }
      return Ok(());
    }

    /** Creates the store below a published marker. */
    method CreateStore(stops: bool) returns (r: Result<(), Error>)
      requires Valid() && root.Directory? && Marked(root.dir)
      modifies this
      ensures Valid() && SafeSince(old(trace)) && root.Directory? && Marked(root.dir)
      ensures r.Ok? ==> Objects in root.dir && ControlDir in root.dir
      ensures r.Ok? ==> root.dir[ControlDir] == Folder(map[DbName := DbFile(FreshDb)])
      ensures r.Ok? && MarkerStage !in old(root.dir) ==> MarkerStage !in root.dir
      ensures !stops ==> r.Ok?
    {
      hide Recoverable, OneOperation, UnusedControl;
      var _ :- EnsureFolder(Objects, stops);
      var _ :- EnsureFolder(ControlDir, stops);
      if root.dir[Objects].children != map[] { return Err(WrongState); }
      r := InitializeControl(stops);
    }

    /** Publishes the manifest over a complete store. */
    method Commit(stops: bool) returns (r: Result<(), Error>)
      requires Valid() && root.Directory? && Marked(root.dir) && MarkerStage !in root.dir
      requires Objects in root.dir && ControlDir in root.dir
      requires root.dir[ControlDir] == Folder(map[DbName := DbFile(FreshDb)])
      modifies this
      ensures Valid() && SafeSince(old(trace)) && root.Directory?
      ensures r.Ok? ==> Committed(root.dir)
      ensures !stops ==> r.Ok?
    {
      hide Recoverable, OneOperation, Classify, Publishable, CanPublish;
      MarkedStatus(root.dir);
      var status :- Inspect(true, stops);
      if status != IncompleteInitialization { return Err(StatusError(status)); }
      ManifestCanPublish(root.dir);
      hide Committed, Marked;
      var _ :- Publish(Manifest, ManifestStage, MANIFEST_TEXT, MAX_MANIFEST_BYTES, stops);
      CommittedStatus(root.dir);
      status :- Inspect(false, stops);
      if status != Current { return Err(StatusError(status)); }
      return Ok(());
    }

    /** The work of initialization once the lock is held and the directory is
        known to be unfinished. */
    method Complete(stops: bool) returns (r: Result<(), Error>)
      requires Valid() && root.Directory? && (LockOnly(root.dir) || Staging(root.dir) || Marked(root.dir))
      modifies this
      ensures Valid() && SafeSince(old(trace)) && root.Directory?
      ensures r.Ok? ==> Committed(root.dir)
      ensures !stops ==> r.Ok?
    {
      hide Recoverable, OneOperation, Publishable, CanPublish, Marked, Committed;
      MarkerCanPublish(root.dir);
      var _ :- Publish(Marker, MarkerStage, MARKER_TEXT, MAX_MARKER_BYTES, stops);
      var _ :- CreateStore(stops);
      r := Commit(stops);
    }

    /** Removes a finished publication's leftover stages, after checking both. */
    method CleanupStages(stops: bool) returns (r: Result<(), Error>)
      requires Valid() && root.Directory? && Classify(root, false) == Ok(Current)
      modifies this
      ensures Valid() && SafeSince(old(trace)) && root.Directory?
      ensures Classify(root, false) == Ok(Current)
      ensures root.dir - {MarkerStage, ManifestStage} == old(root.dir) - {MarkerStage, ManifestStage}
      ensures r.Ok? ==> MarkerStage !in root.dir && ManifestStage !in root.dir
      ensures !stops && (MarkerStage in old(root.dir) || ManifestStage in old(root.dir)) ==> r.Ok?
    {
      hide Recoverable, OneOperation, Classify, Expect;
      CurrentReads(root.dir);
      var stop := MayStop(stops);
      if stop { return Err(Stopped); }
      if || Expect(root.dir, Marker, MAX_MARKER_BYTES, MARKER_TEXT) != Ok(true)
         || Expect(root.dir, Manifest, MAX_MANIFEST_BYTES, MANIFEST_TEXT) != Ok(true)
         || StageMatches(root.dir, MarkerStage, MARKER_TEXT, false) != Ok(true)
         || StageMatches(root.dir, ManifestStage, MANIFEST_TEXT, false) != Ok(true) {
        return Err(UnsupportedEntry);
      }
      CurrentWithoutStage(root.dir, MarkerStage);
      var _ :- RemoveStage(MarkerStage, MARKER_TEXT, false, stops);
      CurrentWithoutStage(root.dir, ManifestStage);
      CurrentReads(root.dir);
      r := RemoveStage(ManifestStage, MANIFEST_TEXT, false, stops);
    }

    /** Explicit initialization of an absent, empty or unfinished root. */
    method Initialize(stops: bool) returns (r: Result<(), Error>)
      requires Valid()
      modifies this
      ensures Valid() && SafeSince(old(trace))
      ensures r.Ok? ==> root.Directory? && Committed(root.dir) && Classify(root, true) == Ok(Current)
      ensures !stops && Unfinished(old(root)) ==> r.Ok?
      ensures IsOpenable(old(root)) ==>
                && r.Err? && IsOpenable(root)
                && root.dir - {MarkerStage, ManifestStage} == old(root.dir) - {MarkerStage, ManifestStage}
      ensures !stops && IsOpenable(old(root)) ==>
                r == Err(AlreadyExists) && MarkerStage !in root.dir && ManifestStage !in root.dir
      ensures !Unfinished(old(root)) && !IsOpenable(old(root)) ==> r.Err? && root == old(root)
    {
      StatusMeans(root);
      CurrentIsOpenable(root, true);
      hide Recoverable, OneOperation, Classify, Committed, LockOnly, Staging, Marked, Openable;
      ProbeRefines(root);
      StatusShape(root, false);
      StatusShape(root, true);
      var status :- Inspect(false, stops);
      if status == Absent {
        PhasedIsRecoverable(Directory(map[]));
        StatusShape(Directory(map[]), false);
        assert OneOperation(root, Directory(map[])) by { RootAppears(); }
        Apply(Directory(map[]));
        status :- Inspect(false, stops);
      }
      if status == Current {
        if MarkerStage in root.dir || ManifestStage in root.dir {
          r := CleanupStages(stops);
          ProbeRefines(root);
          CurrentIsOpenable(root, true);
          if r.Err? { return; }
        }
        return Err(AlreadyExists);
      }
      if status != Empty && status != IncompleteInitialization { return Err(StatusError(status)); }
      var _ :- AcquireLock(stops);
      if LockOnly(root.dir) { EarlyStatus(root.dir); }
      status :- Inspect(true, stops);
      if status != IncompleteInitialization { return Err(StatusError(status)); }
      IncompleteIsPhased(root.dir);
      r := Complete(stops);
      if r.Ok? { CommittedStatus(root.dir); }
    }

    /** Removes both stages of an unfinished initialization. */
    method RemoveStages(stops: bool) returns (r: Result<(), Error>)
      requires Valid() && root.Directory? && Marked(root.dir)
      modifies this
      ensures Valid() && SafeSince(old(trace)) && root.Directory? && Marked(root.dir)
      ensures r.Ok? ==> root.dir == old(root.dir) - {MarkerStage, ManifestStage}
      ensures !stops ==> r.Ok?
    {
      hide Recoverable, OneOperation, Marked, Expect, StageMatches;
      DropStep(root.dir, MarkerStage);
      MarkedReads(root.dir);
      var _ :- RemoveStage(MarkerStage, MARKER_TEXT, false, stops);
      DropStep(root.dir, ManifestStage);
      MarkedReads(root.dir);
      assert root.dir - {ManifestStage} == old(root.dir) - {MarkerStage, ManifestStage};
      r := RemoveStage(ManifestStage, MANIFEST_TEXT, true, stops);
    }

    /** Removes one entry that holds nothing. */
    method RemoveEntry(name: Name, stops: bool) returns (r: Result<(), Error>)
      requires Valid() && root.Directory?
      requires name in root.dir ==> Recoverable(Directory(root.dir - {name}))
      modifies this
      ensures Valid() && SafeSince(old(trace)) && root.Directory?
      ensures r.Ok? ==> root.dir == old(root.dir) - {name}
      ensures r.Err? ==> root == old(root)
      ensures !stops ==> r.Ok?
    {
      hide Recoverable;
      RemoveStep(root, name);
      hide OneOperation;
      var stop := MayStop(stops);
      if stop { return Err(Stopped); }
      assert name !in root.dir ==> root.dir == root.dir - {name};
      if name in root.dir { Apply(Directory(root.dir - {name})); }
      return Ok(());
    }

    /** Removes the control database, the two directories and the marker. */
    method RemoveStore(stops: bool) returns (r: Result<(), Error>)
      requires Valid() && root.Directory? && Marked(root.dir)
      requires MarkerStage !in root.dir && ManifestStage !in root.dir
      modifies this
      ensures Valid() && SafeSince(old(trace)) && root.Directory?
      ensures r.Ok? ==> LockOnly(root.dir)
      ensures !stops ==> r.Ok?
    {
      hide Recoverable, OneOperation, Classify;
      if ControlDir in root.dir {
        if root.dir[ControlDir].children != map[] {
          StoreStep(root.dir, ControlDir, Folder(map[]));
          var stop := MayStop(stops);
          if stop { return Err(Stopped); }
          Apply(Directory(root.dir[ControlDir := Folder(map[])]));
        }
        DropStep(root.dir, ControlDir);
        var _ :- RemoveEntry(ControlDir, stops);
      }
      DropStep(root.dir, Objects);
      var _ :- RemoveEntry(Objects, stops);
      MarkerLast(root.dir);
      r := RemoveEntry(Marker, stops);
    }

    /** Discards an unfinished initialization that owns its marker. The lock
        stays, and an unfinished root without a marker is refused. */
    method Discard(stops: bool) returns (r: Result<(), Error>)
      requires Valid()
      modifies this
      ensures Valid() && SafeSince(old(trace))
      ensures r.Ok? ==> root.Directory? && LockOnly(root.dir)
      ensures !stops && old(root).Directory? && Marked(old(root.dir)) ==> r.Ok?
      ensures !(old(root).Directory? && Marked(old(root.dir))) ==> r.Err? && root == old(root)
    {
      hide Recoverable, OneOperation, Classify, Marked;
      if root.Directory? { MarkedFirst(root.dir); }
      StatusShape(root, false);
      var status :- Inspect(false, stops);
      if status != IncompleteInitialization { return Err(StatusError(status)); }
      var marker :- ReadBounded(root.dir, Marker, MAX_MARKER_BYTES);
      if marker != Some(MARKER_TEXT) { return Err(WrongState); }
      hide ReadBounded, LockOnly, Staging;
      status :- Inspect(true, stops);
      if status != IncompleteInitialization { return Err(StatusError(status)); }
      IncompleteIsPhased(root.dir);
      var _ :- RemoveStages(stops);
      r := RemoveStore(stops);
    }
  }
}
