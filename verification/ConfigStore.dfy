/**
  The crash-safe document store (src/config_store.rs) as interleaved steps of
  any number of stores and deletes over a directory and its files.  Any step of
  a store may fail, and a crash may come between any two steps: it loses what
  was not synced and may bring back any earlier entry of the directory, since
  the directory itself is never synced.
*/
module ConfigStore {
  import opened Basics

  type Bytes = seq<bv8>

  /** The document, or the temporary file of one store call. */
  datatype Name = Document | Temp(call: nat)

  /** The file the document was at the start, or the one a store call created. */
  datatype FileId = Original | By(call: nat)

  datatype File = File(bytes: Bytes, synced: bool)

  datatype Phase =
    | Started
    | Writing(written: nat)
    | Synced
    | Discarding
    | Stored
    | Failed(leftTemp: bool)
    | Lost

  /** A store call; `life` counts the crashes before it. */
  datatype Call = Call(bytes: Bytes, phase: Phase, life: nat)

  datatype System = System(
    dir: map<Name, FileId>,
    files: map<FileId, File>,
    calls: map<nat, Call>,
    crashes: nat,
    // What a crash can bring back: every entry there has been, and whether
    // the document has ever been absent.
    entries: set<(Name, FileId)>,
    wasAbsent: bool)

  datatype Step =
    | Begin(call: nat, bytes: Bytes)
    | Create(call: nat)
    | CreateFails(call: nat)
    | Write(call: nat, n: nat)
    | WriteFails(call: nat)
    | Sync(call: nat)
    | SyncFails(call: nat)
    | Rename(call: nat)
    | RenameFails(call: nat)
    | RemoveTemp(call: nat)
    | RemoveTempFails(call: nat)
    | Delete
    | Crash(dir: map<Name, FileId>, files: map<FileId, File>)

  /** The document as a load reads it. */
  function Load(s: System): Option<Bytes> {
    if Document in s.dir && s.dir[Document] in s.files then Some(s.files[s.dir[Document]].bytes) else None
  }

  predicate In(s: System, call: nat, phase: Phase) {
    call in s.calls && s.calls[call].phase == phase
  }

  function At(s: System, call: nat, phase: Phase): System
    requires call in s.calls
  {
    s.(calls := s.calls[call := s.calls[call].(phase := phase)])
  }

  // ---- The steps ----

  predicate Enabled(s: System, step: Step) {
    match step
    case Begin(c, _) => c !in s.calls
    case Create(c) => In(s, c, Started)
    case CreateFails(c) => In(s, c, Started)
    case Write(c, n) => c in s.calls && s.calls[c].phase.Writing? && s.calls[c].phase.written + n <= |s.calls[c].bytes|
    case WriteFails(c) => c in s.calls && s.calls[c].phase.Writing?
    case Sync(c) => In(s, c, Writing(if c in s.calls then |s.calls[c].bytes| else 0))
    case SyncFails(c) => In(s, c, Writing(if c in s.calls then |s.calls[c].bytes| else 0))
    case Rename(c) => In(s, c, Synced) && Temp(c) in s.dir
    case RenameFails(c) => In(s, c, Synced)
    case RemoveTemp(c) => In(s, c, Discarding)
    case RemoveTempFails(c) => In(s, c, Discarding)
    case Delete => true
    case Crash(dir, files) =>
      && (forall n :: n in dir ==> (n, dir[n]) in s.entries)
      && (Document !in dir ==> s.wasAbsent)
      && files.Keys == s.files.Keys
      && (forall f :: f in s.files && s.files[f].synced ==> files[f] == s.files[f])
      && (forall f :: f in s.files && !s.files[f].synced ==> !files[f].synced)
  }

  function Lose(c: Call): Call {
    if c.phase.Stored? || c.phase.Failed? then c else c.(phase := Lost)
  }

  function Apply(s: System, step: Step): System
    requires Enabled(s, step)
  {
    match step
    case Begin(c, bytes) => s.(calls := s.calls[c := Call(bytes, Started, s.crashes)])
    case Create(c) =>
      At(s, c, Writing(0)).(
        dir := s.dir[Temp(c) := By(c)],
        files := s.files[By(c) := File([], false)],
        entries := s.entries + {(Temp(c), By(c))})
    case CreateFails(c) => At(s, c, Discarding)
    case Write(c, n) =>
      var written := s.calls[c].phase.written + n;
      At(s, c, Writing(written)).(files := s.files[By(c) := File(s.calls[c].bytes[..written], false)])
    case WriteFails(c) => At(s, c, Discarding)
    case Sync(c) =>
      At(s, c, Synced).(files := map f | f in s.files :: if f == By(c) then File(s.files[f].bytes, true) else s.files[f])
    case SyncFails(c) => At(s, c, Discarding)
    case Rename(c) =>
      At(s, c, Stored).(
        dir := (s.dir - {Temp(c)})[Document := s.dir[Temp(c)]],
        entries := s.entries + {(Document, s.dir[Temp(c)])})
    case RenameFails(c) => At(s, c, Discarding)
    case RemoveTemp(c) => At(s, c, Failed(false)).(dir := s.dir - {Temp(c)})
    case RemoveTempFails(c) => At(s, c, Failed(true))
    case Delete => s.(dir := s.dir - {Document}, wasAbsent := true)
    case Crash(dir, files) =>
      s.(dir := dir, files := files, crashes := s.crashes + 1, calls := map c | c in s.calls :: Lose(s.calls[c]))
  }

  /** A state directory with a document in it, or none. */
  ghost predicate Initial(s: System, document: Option<Bytes>) {
    && s.calls == map[] && s.crashes == 0
    && match document
       case None => s.dir == map[] && s.files == map[] && s.entries == {} && s.wasAbsent
       case Some(bytes) =>
         && s.dir == map[Document := Original]
         && s.files == map[Original := File(bytes, true)]
         && s.entries == {(Document, Original)}
         && !s.wasAbsent
  }

  ghost predicate IsRun(document: Option<Bytes>, states: seq<System>, steps: seq<Step>) {
    && |states| == |steps| + 1
    && Initial(states[0], document)
    && forall i :: 0 <= i < |steps| ==> Enabled(states[i], steps[i]) && states[i + 1] == Apply(states[i], steps[i])
  }

  // ---- What every step keeps ----

  /** A file fit to be the document: synced, and whole. */
  ghost predicate Sealed(s: System, document: Option<Bytes>, f: FileId) {
    f in s.files && s.files[f].synced &&
    match f
    case Original => document == Some(s.files[f].bytes)
    case By(c) => In(s, c, Stored) && s.files[f].bytes == s.calls[c].bytes
  }

  ghost predicate DirKnown(s: System) {
    && (forall n :: n in s.dir ==> (n, s.dir[n]) in s.entries)
    && (Document !in s.dir ==> s.wasAbsent)
  }

  ghost predicate DocumentsSealed(s: System, document: Option<Bytes>) {
    forall f :: (Document, f) in s.entries ==> Sealed(s, document, f)
  }

  ghost predicate TempsOwned(s: System) {
    forall c, f :: (Temp(c), f) in s.entries ==> f == By(c) && c in s.calls && !s.calls[c].phase.Started?
  }

  /** Where a call stands, its file and its temporary entry stand too. */
  ghost predicate CallHolds(s: System, c: nat)
    requires c in s.calls
  {
    var call, f := s.calls[c], By(c);
    && call.life <= s.crashes
    && (call.phase.Started? || call.phase.Writing? || call.phase.Synced? || call.phase.Discarding? ==>
         call.life == s.crashes)
    && (call.phase.Lost? ==> call.life < s.crashes)
    && (call.phase.Started? ==> f !in s.files)
    && (call.phase.Writing? ==>
         call.phase.written <= |call.bytes| && f in s.files && s.files[f] == File(call.bytes[..call.phase.written], false))
    && (call.phase.Synced? || call.phase.Stored? ==> f in s.files && s.files[f] == File(call.bytes, true))
    && (call.phase.Writing? || call.phase.Synced? ==> Temp(c) in s.dir)
    && (call.phase.Stored? || call.phase == Failed(false) ==> call.life == s.crashes ==> Temp(c) !in s.dir)
  }

  ghost predicate Inv(s: System, document: Option<Bytes>) {
    && DirKnown(s) && DocumentsSealed(s, document) && TempsOwned(s)
    && (forall c :: c in s.calls ==> CallHolds(s, c))
    && (forall c :: By(c) in s.files ==> c in s.calls)
  }

  /** The call a step belongs to. */
  function Actor(step: Step): Option<nat> {
    match step
    case Delete => None
    case Crash(_, _) => None
    case _ => Some(step.call)
  }

  /** A step leaves every other call, its file and its temporary entry alone. */
  lemma OthersAreLeftAlone(s: System, step: Step, c: nat)
    requires Enabled(s, step) && !step.Crash? && Actor(step) != Some(c) && c in s.calls
    ensures var s' := Apply(s, step);
      && c in s'.calls && s'.calls[c] == s.calls[c] && s'.crashes == s.crashes
      && (By(c) in s'.files <==> By(c) in s.files) && (By(c) in s.files ==> s'.files[By(c)] == s.files[By(c)])
      && (Temp(c) in s'.dir <==> Temp(c) in s.dir)
  {
  }

  lemma ActorHolds(s: System, step: Step, c: nat)
    requires Enabled(s, step) && Actor(step) == Some(c)
    requires if c in s.calls then CallHolds(s, c) else By(c) !in s.files
    ensures c in Apply(s, step).calls && CallHolds(Apply(s, step), c)
  {
  }

  lemma CrashedCallHolds(s: System, step: Step, c: nat)
    requires step.Crash? && Enabled(s, step) && c in s.calls && CallHolds(s, c)
    ensures CallHolds(Apply(s, step), c)
  {
  }

  lemma StepKeepsCall(s: System, document: Option<Bytes>, step: Step, c: nat)
    requires Inv(s, document) && Enabled(s, step) && c in Apply(s, step).calls
    ensures CallHolds(Apply(s, step), c)
  {
    hide DirKnown, DocumentsSealed, TempsOwned;
    if Actor(step) == Some(c) {
      ActorHolds(s, step, c);
    } else {
      assert c in s.calls && CallHolds(s, c);
      if step.Crash? {
        CrashedCallHolds(s, step, c);
      } else {
        OthersAreLeftAlone(s, step, c);
        hide Apply, Enabled;
      }
    }
  }

  /** No step touches a file once it is sealed. */
  lemma SealedKeepsBytes(s: System, document: Option<Bytes>, step: Step, f: FileId)
    requires Inv(s, document) && Enabled(s, step) && Sealed(s, document, f)
    ensures f in Apply(s, step).files && Apply(s, step).files[f] == s.files[f]
  {
    if f.By? && !step.Crash? && Actor(step) != Some(f.call) {
      OthersAreLeftAlone(s, step, f.call);
    }
    hide DirKnown, DocumentsSealed, TempsOwned, CallHolds;
  }

  lemma SealedStays(s: System, document: Option<Bytes>, step: Step, f: FileId)
    requires Inv(s, document) && Enabled(s, step) && Sealed(s, document, f)
    ensures Sealed(Apply(s, step), document, f)
  {
    SealedKeepsBytes(s, document, step, f);
    if f.By? && !step.Crash? && Actor(step) != Some(f.call) {
      OthersAreLeftAlone(s, step, f.call);
    }
    hide Inv;
  }

  lemma RenameSeals(s: System, document: Option<Bytes>, c: nat)
    requires Inv(s, document) && Enabled(s, Rename(c))
    ensures s.dir[Temp(c)] == By(c) && Sealed(Apply(s, Rename(c)), document, By(c))
  {
    assert CallHolds(s, c);
    assert (Temp(c), s.dir[Temp(c)]) in s.entries;
  }

  lemma StepKeepsDocumentsSealed(s: System, document: Option<Bytes>, step: Step)
    requires Inv(s, document) && Enabled(s, step)
    ensures DocumentsSealed(Apply(s, step), document)
  {
    var s' := Apply(s, step);
    assert forall f :: (Document, f) in s'.entries ==>
      (Document, f) in s.entries || (step.Rename? && f == s.dir[Temp(step.call)]);
    forall f | (Document, f) in s.entries ensures Sealed(s', document, f) {
      SealedStays(s, document, step, f);
    }
    if step.Rename? {
      RenameSeals(s, document, step.call);
    }
    hide Sealed, CallHolds, Apply, Enabled;
  }

  lemma StepKeepsTempsOwned(s: System, step: Step)
    requires TempsOwned(s) && Enabled(s, step)
    ensures TempsOwned(Apply(s, step))
  {
    var s' := Apply(s, step);
    forall c, f | (Temp(c), f) in s'.entries
      ensures f == By(c) && c in s'.calls && !s'.calls[c].phase.Started?
    {
      if (Temp(c), f) in s.entries && !step.Crash? && Actor(step) != Some(c) {
        OthersAreLeftAlone(s, step, c);
      }
    }
  }

  lemma StepKeepsDirKnown(s: System, step: Step)
    requires DirKnown(s) && Enabled(s, step)
    ensures DirKnown(Apply(s, step))
  {
  }

  lemma StepKeepsInv(s: System, document: Option<Bytes>, step: Step)
    requires Inv(s, document) && Enabled(s, step)
    ensures Inv(Apply(s, step), document)
  {
    StepKeepsDocumentsSealed(s, document, step);
    StepKeepsTempsOwned(s, step);
    StepKeepsDirKnown(s, step);
    forall c | c in Apply(s, step).calls ensures CallHolds(Apply(s, step), c) {
      StepKeepsCall(s, document, step, c);
    }
    FilesHaveCalls(s, step);
    hide DirKnown, DocumentsSealed, TempsOwned, CallHolds, Apply, Enabled;
  }

  lemma FilesHaveCalls(s: System, step: Step)
    requires Enabled(s, step) && forall c :: By(c) in s.files ==> c in s.calls
    ensures forall c :: By(c) in Apply(s, step).files ==> c in Apply(s, step).calls
  {
  }

  lemma {:induction false} RunKeepsInv(document: Option<Bytes>, states: seq<System>, steps: seq<Step>, i: nat)
    requires IsRun(document, states, steps) && i <= |steps|
    ensures Inv(states[i], document)
  {
    if i > 0 {
      RunKeepsInv(document, states, steps, i - 1);
      StepKeepsInv(states[i - 1], document, steps[i - 1]);
    }
  }

  // ---- What a reader of the document can see ----

  /** The atomic register a store refines: only a rename and a delete change the
      document, a rename to the whole of its call's bytes.  No step of a store
      that fails changes it. */
  lemma OnlyRenameAndDeleteChangeTheDocument(s: System, document: Option<Bytes>, step: Step)
    requires Inv(s, document) && Enabled(s, step) && !step.Crash?
    ensures Load(Apply(s, step)) ==
      match step
      case Rename(c) => Some(s.calls[c].bytes)
      case Delete => None
      case _ => Load(s)
  {
    DocumentEntry(s, step);
    if step.Rename? {
      RenameSeals(s, document, step.call);
    }
    if Document in s.dir {
      SealedKeepsBytes(s, document, step, s.dir[Document]);
    }
    hide CallHolds, Apply, Enabled;
  }

  lemma DocumentEntry(s: System, step: Step)
    requires Enabled(s, step) && !step.Crash?
    ensures var s' := Apply(s, step);
      match step
      case Rename(c) => c in s.calls && Document in s'.dir && s'.dir[Document] == s.dir[Temp(c)] && c in s'.calls
                        && s'.calls[c].bytes == s.calls[c].bytes
      case Delete => Document !in s'.dir
      case _ => (Document in s'.dir <==> Document in s.dir) && (Document in s.dir ==> s'.dir[Document] == s.dir[Document])
  {
  }

  /** At every moment of every run the document is the original one or the
      complete bytes of one store that succeeded, or it is absent, having been
      so at the start or been deleted. */
  lemma DocumentIsWhole(document: Option<Bytes>, states: seq<System>, steps: seq<Step>, i: nat)
    requires IsRun(document, states, steps) && i <= |steps|
    ensures match Load(states[i])
      case None => document == None || exists j :: 0 <= j < i && steps[j] == Delete
      case Some(bytes) =>
        document == Some(bytes) ||
        exists c :: c in states[i].calls && states[i].calls[c].phase == Stored && states[i].calls[c].bytes == bytes
  {
    RunKeepsInv(document, states, steps, i);
    var s := states[i];
    if Document in s.dir {
      assert Sealed(s, document, s.dir[Document]);
    } else {
      AbsenceHasACause(document, states, steps, i);
    }
  }

  lemma {:induction false} AbsenceHasACause(document: Option<Bytes>, states: seq<System>, steps: seq<Step>, i: nat)
    requires IsRun(document, states, steps) && i <= |steps| && states[i].wasAbsent
    ensures document == None || exists j :: 0 <= j < i && steps[j] == Delete
  {
    if i > 0 {
      assert states[i] == Apply(states[i - 1], steps[i - 1]);
      if states[i - 1].wasAbsent {
        AbsenceHasACause(document, states, steps, i - 1);
      } else {
        assert steps[i - 1] == Delete;
      }
    }
  }

  /** A crash can only take the document back to what it was at some moment
      before. */
  lemma CrashRevertsToEarlier(document: Option<Bytes>, states: seq<System>, steps: seq<Step>, i: nat) returns (j: nat)
    requires IsRun(document, states, steps) && i < |steps| && steps[i].Crash?
    ensures j <= i && Load(states[i + 1]) == Load(states[j])
  {
    RunKeepsInv(document, states, steps, i);
    var s, s' := states[i], states[i + 1];
    assert s' == Apply(s, steps[i]);
    if Document in s'.dir {
      var f := s'.dir[Document];
      assert Sealed(s, document, f);
      j := EntryWasDocument(document, states, steps, i, f);
    } else {
      j := AbsentBefore(document, states, steps, i);
    }
  }

  lemma RunStep(document: Option<Bytes>, states: seq<System>, steps: seq<Step>, i: nat)
    requires IsRun(document, states, steps) && i < |steps|
    ensures Inv(states[i], document) && Enabled(states[i], steps[i])
    ensures states[i + 1] == Apply(states[i], steps[i])
  {
    RunKeepsInv(document, states, steps, i);
  }

  lemma EntryStep(s: System, document: Option<Bytes>, step: Step, f: FileId)
    requires Inv(s, document) && Enabled(s, step) && (Document, f) in Apply(s, step).entries
    ensures var s' := Apply(s, step);
      && f in s'.files
      && (((Document, f) in s.entries && f in s.files && s'.files[f] == s.files[f])
          || Load(s') == Some(s'.files[f].bytes))
  {
    if (Document, f) in s.entries {
      assert Sealed(s, document, f);
      SealedKeepsBytes(s, document, step, f);
      hide Inv;
    } else {
      RenameSeals(s, document, step.call);
      hide Inv;
    }
  }

  lemma {:induction false} EntryWasDocument(
    document: Option<Bytes>, states: seq<System>, steps: seq<Step>, i: nat, f: FileId)
    returns (j: nat)
    requires IsRun(document, states, steps) && i <= |steps| && (Document, f) in states[i].entries
    ensures j <= i && f in states[i].files && Load(states[j]) == Some(states[i].files[f].bytes)
  {
    if i == 0 {
      j := 0;
    } else {
      RunStep(document, states, steps, i - 1);
      EntryStep(states[i - 1], document, steps[i - 1], f);
      hide IsRun, Apply, Enabled, Inv, Load;
      if Load(states[i]) == Some(states[i].files[f].bytes) {
        j := i;
      } else {
        j := EntryWasDocument(document, states, steps, i - 1, f);
      }
    }
  }

  lemma {:induction false} AbsentBefore(document: Option<Bytes>, states: seq<System>, steps: seq<Step>, i: nat)
    returns (j: nat)
    requires IsRun(document, states, steps) && i <= |steps| && states[i].wasAbsent
    ensures j <= i && Load(states[j]) == None
  {
    if i == 0 {
      j := 0;
    } else {
      assert states[i] == Apply(states[i - 1], steps[i - 1]);
      if states[i - 1].wasAbsent {
        j := AbsentBefore(document, states, steps, i - 1);
      } else {
        assert steps[i - 1] == Delete;
        j := i;
      }
    }
  }

  /** The last write wins: until another store, a delete or a crash, the
      document is what the last store renamed into place, whatever other stores
      do in the meantime. */
  lemma {:induction false} LastWriteWins(
    document: Option<Bytes>, states: seq<System>, steps: seq<Step>, i: nat, k: nat)
    requires IsRun(document, states, steps) && i < k <= |steps| && steps[i].Rename?
    requires forall j :: i < j < k ==> !steps[j].Rename? && !steps[j].Delete? && !steps[j].Crash?
    ensures steps[i].call in states[i].calls
    ensures Load(states[k]) == Some(states[i].calls[steps[i].call].bytes)
    decreases k
  {
    hide Load, Initial;
    RenameLoads(document, states, steps, i);
    if i < k - 1 {
      LastWriteWins(document, states, steps, i, k - 1);
      DocumentStays(document, states, steps, k - 1);
    }
    hide IsRun;
  }

  lemma RenameLoads(document: Option<Bytes>, states: seq<System>, steps: seq<Step>, i: nat)
    requires IsRun(document, states, steps) && i < |steps| && steps[i].Rename?
    ensures steps[i].call in states[i].calls
    ensures Load(states[i + 1]) == Some(states[i].calls[steps[i].call].bytes)
  {
    RunStep(document, states, steps, i);
    assert steps[i].call in states[i].calls;
    OnlyRenameAndDeleteChangeTheDocument(states[i], document, steps[i]);
    hide IsRun, Apply, Enabled, Inv, Load;
  }

  lemma DocumentStays(document: Option<Bytes>, states: seq<System>, steps: seq<Step>, j: nat)
    requires IsRun(document, states, steps) && j < |steps|
    requires !steps[j].Rename? && !steps[j].Delete? && !steps[j].Crash?
    ensures Load(states[j + 1]) == Load(states[j])
  {
    RunStep(document, states, steps, j);
    OnlyRenameAndDeleteChangeTheDocument(states[j], document, steps[j]);
    hide IsRun, Apply, Enabled, Inv, Load;
  }

  /** A temporary file is there only for a call still at work, one whose removal
      of it failed, or one from before a crash. */
  lemma TemporaryFilesAreAccountedFor(document: Option<Bytes>, states: seq<System>, steps: seq<Step>, i: nat, c: nat)
    requires IsRun(document, states, steps) && i <= |steps| && Temp(c) in states[i].dir
    ensures c in states[i].calls
    ensures var call := states[i].calls[c];
      || call.phase.Writing? || call.phase.Synced? || call.phase.Discarding?
      || call.phase == Failed(true)
      || call.life < states[i].crashes
  {
    RunKeepsInv(document, states, steps, i);
    var s := states[i];
    assert (Temp(c), s.dir[Temp(c)]) in s.entries;
    assert CallHolds(s, c);
  }

  // ---- Stores do not wait for each other ----

  /** The steps that are open to store `c`: its next one, or failing at it. */
  ghost predicate MayGoOn(s: System, c: nat, bytes: Bytes) {
    if c !in s.calls then Enabled(s, Begin(c, bytes)) else
    match s.calls[c].phase
    case Started => Enabled(s, Create(c)) && Enabled(s, CreateFails(c))
    case Writing(written) =>
      && Enabled(s, WriteFails(c))
      && (forall n: nat :: written + n <= |s.calls[c].bytes| ==> Enabled(s, Write(c, n)))
      && (written == |s.calls[c].bytes| ==> Enabled(s, Sync(c)) && Enabled(s, SyncFails(c)))
    case Synced => Enabled(s, Rename(c)) && Enabled(s, RenameFails(c))
    case Discarding => Enabled(s, RemoveTemp(c)) && Enabled(s, RemoveTempFails(c))
    case _ => true
  }

  lemma CallMayGoOn(s: System, c: nat, bytes: Bytes)
    requires c in s.calls ==> CallHolds(s, c)
    ensures MayGoOn(s, c, bytes) && Enabled(s, Delete)
  {
  }

  /** In every reachable state a store may begin, every store under way can take
      its next step or fail at it, and a delete can come, whatever others do. */
  lemma NothingWaits(document: Option<Bytes>, states: seq<System>, steps: seq<Step>, i: nat, c: nat, bytes: Bytes)
    requires IsRun(document, states, steps) && i <= |steps|
    ensures MayGoOn(states[i], c, bytes) && Enabled(states[i], Delete)
  {
    hide MayGoOn, CallHolds, Enabled;
    RunKeepsInv(document, states, steps, i);
    CallMayGoOn(states[i], c, bytes);
  }

  // ---- What a crash can do ----

  lemma EntriesGrow(s: System, step: Step)
    requires Enabled(s, step)
    ensures s.entries <= Apply(s, step).entries && (s.wasAbsent ==> Apply(s, step).wasAbsent)
  {
  }

  lemma EntryIsSealed(document: Option<Bytes>, states: seq<System>, steps: seq<Step>, i: nat, f: FileId)
    requires IsRun(document, states, steps) && i < |states| && (Document, f) in states[i].entries
    ensures Sealed(states[i], document, f) && f in states[i].files
  {
    RunKeepsInv(document, states, steps, i);
    hide IsRun;
  }

  lemma RunLength(document: Option<Bytes>, states: seq<System>, steps: seq<Step>)
    requires IsRun(document, states, steps)
    ensures |states| == |steps| + 1
  {
  }

  lemma {:induction false} DocumentCanReturn(
    document: Option<Bytes>, states: seq<System>, steps: seq<Step>, j: nat, i: nat, f: FileId)
    requires IsRun(document, states, steps) && j <= i < |states| && (Document, f) in states[j].entries
    ensures (Document, f) in states[i].entries && f in states[j].files && f in states[i].files
    ensures states[i].files[f].bytes == states[j].files[f].bytes
    decreases i
  {
    hide IsRun, Inv, Apply, Enabled, Sealed;
    RunLength(document, states, steps);
    EntryIsSealed(document, states, steps, j, f);
    if j < i {
      DocumentCanReturn(document, states, steps, j, i - 1, f);
      RunStep(document, states, steps, i - 1);
      EntryIsSealed(document, states, steps, i - 1, f);
      EntriesGrow(states[i - 1], steps[i - 1]);
      SealedKeepsBytes(states[i - 1], document, steps[i - 1], f);
    }
  }

  lemma {:induction false} AbsenceCanReturn(
    document: Option<Bytes>, states: seq<System>, steps: seq<Step>, j: nat, i: nat)
    requires IsRun(document, states, steps) && j <= i < |states| && states[j].wasAbsent
    ensures states[i].wasAbsent
    decreases i
  {
    hide IsRun, Inv, Apply, Enabled;
    RunLength(document, states, steps);
    if j < i {
      AbsenceCanReturn(document, states, steps, j, i - 1);
      RunStep(document, states, steps, i - 1);
      EntriesGrow(states[i - 1], steps[i - 1]);
    }
  }

  lemma CrashTo(s: System, dir: map<Name, FileId>)
    requires forall n :: n in dir ==> (n, dir[n]) in s.entries
    requires Document !in dir ==> s.wasAbsent
    ensures Enabled(s, Crash(dir, s.files)) && Apply(s, Crash(dir, s.files)).dir == dir
    ensures Apply(s, Crash(dir, s.files)).files == s.files
  {
  }

  /** And to any of them: the directory is never synced, so at every moment a
      crash may take the document back to what it was at any moment before, a
      store that succeeded or a delete undone. */
  lemma CrashMayRevertTo(document: Option<Bytes>, states: seq<System>, steps: seq<Step>, i: nat, j: nat)
    returns (crash: Step)
    requires IsRun(document, states, steps) && j <= i <= |steps|
    ensures crash.Crash? && Enabled(states[i], crash) && Load(Apply(states[i], crash)) == Load(states[j])
  {
    RunKeepsInv(document, states, steps, j);
    var s, was := states[i], states[j];
    assert Document in was.dir ==> Sealed(was, document, was.dir[Document]);
    if Document in was.dir {
      var dir := map[Document := was.dir[Document]];
      DocumentCanReturn(document, states, steps, j, i, was.dir[Document]);
      crash := Crash(dir, s.files);
      hide IsRun, Inv, Apply, Enabled, Sealed;
      CrashTo(s, dir);
    } else {
      AbsenceCanReturn(document, states, steps, j, i);
      crash := Crash(map[], s.files);
      hide IsRun, Inv, Apply, Enabled, Sealed;
      CrashTo(s, map[]);
    }
  }

  /** What was written but not synced may come back as anything at all: the
      rename has to wait for the sync. */
  lemma CrashMayLoseUnsynced(document: Option<Bytes>, states: seq<System>, steps: seq<Step>, i: nat, f: FileId, rest: Bytes)
    returns (crash: Step)
    requires IsRun(document, states, steps) && i <= |steps|
    requires f in states[i].files && !states[i].files[f].synced
    ensures crash.Crash? && Enabled(states[i], crash)
    ensures var s' := Apply(states[i], crash);
      s'.dir == states[i].dir && f in s'.files && s'.files[f].bytes == rest
  {
    RunKeepsInv(document, states, steps, i);
    var s := states[i];
    crash := Crash(s.dir, s.files[f := File(rest, false)]);
  }

  // ---- The store itself, with nothing in between ----

  /** Where a store call fails, if it does. */
  datatype Faults = Faults(create: bool, writeAfter: Option<nat>, sync: bool, rename: bool, remove: bool)

  class ConfigStore {
    var system: System
    var counter: nat
    ghost var original: Option<Bytes>

    ghost predicate Valid()
      reads this
    {
      Inv(system, original) && forall c :: c in system.calls ==> c < counter
    }

    constructor (document: Option<Bytes>)
      ensures Valid() && Load(system) == document && original == document
    {
      counter := 0;
      original := document;
      system := match document
        case None => System(map[], map[], map[], 0, {}, true)
        case Some(bytes) =>
          System(map[Document := Original], map[Original := File(bytes, true)], map[], 0, {(Document, Original)}, false);
    }

    method UniqueSuffix() returns (n: nat)
      modifies this`counter
      ensures n == old(counter) && counter == n + 1
    {
      n := counter;
      counter := counter + 1;
    }

    /** One effect on the file system. */
    method Do(step: Step)
      requires Valid() && Enabled(system, step) && !step.Begin?
      modifies this`system
      ensures Valid() && system == Apply(old(system), step)
    {
      StepKeepsInv(system, original, step);
      system := Apply(system, step);
    }

    /** What is loaded is the original document or all the bytes of one store
        that succeeded, never a part of them. */
    method LoadDocument() returns (r: Option<Bytes>)
      requires Valid()
      ensures r == Load(system)
      ensures r.Some? && r != original ==>
        exists c :: c in system.calls && system.calls[c].phase == Stored && system.calls[c].bytes == r.value
    {
      r := Load(system);
      assert Document in system.dir ==> Sealed(system, original, system.dir[Document]);
    }

    /** A failed call removes its temporary file, and does not mind if it cannot. */
    method Discard(c: nat, faults: Faults)
      requires Valid() && In(system, c, Discarding)
      modifies this`system
      ensures Valid() && Load(system) == old(Load(system))
      ensures !faults.remove ==> Temp(c) !in system.dir
    {
      var step := if faults.remove then RemoveTempFails(c) else RemoveTemp(c);
      OnlyRenameAndDeleteChangeTheDocument(system, original, step);
      Do(step);
    }

    /** Writes all the bytes, in pieces of any size, or up to where it fails. */
    method WriteAll(c: nat, bytes: Bytes, faults: Faults) returns (ok: bool)
      requires Valid() && In(system, c, Writing(0)) && system.calls[c].bytes == bytes
      modifies this`system
      ensures Valid() && Load(system) == old(Load(system))
      ensures In(system, c, if ok then Writing(|bytes|) else Discarding) && system.calls[c].bytes == bytes
      ensures ok <==> (faults.writeAfter.Some? ==> faults.writeAfter.value >= |bytes|)
    {
      hide Inv, Load;
      var written := 0;
      while written < |bytes|
        invariant written <= |bytes| && Valid() && Load(system) == old(Load(system))
        invariant In(system, c, Writing(written)) && system.calls[c].bytes == bytes
        invariant faults.writeAfter.Some? ==> written <= faults.writeAfter.value
      {
        if faults.writeAfter == Some(written) {
          OnlyRenameAndDeleteChangeTheDocument(system, original, WriteFails(c));
          Do(WriteFails(c));
          return false;
        }
        var n: nat :| 0 < n <= |bytes| - written
          && (faults.writeAfter.Some? ==> written + n <= faults.writeAfter.value || n == 1);
        OnlyRenameAndDeleteChangeTheDocument(system, original, Write(c, n));
        Do(Write(c, n));
        written := written + n;
      }
      ok := true;
    }

    method WriteAndSync(c: nat, bytes: Bytes, faults: Faults) returns (ok: bool)
      requires Valid() && In(system, c, Started) && system.calls[c].bytes == bytes
      modifies this`system
      ensures Valid() && Load(system) == old(Load(system))
      ensures In(system, c, if ok then Synced else Discarding) && system.calls[c].bytes == bytes
      ensures ok <==> !faults.create && (faults.writeAfter.Some? ==> faults.writeAfter.value >= |bytes|) && !faults.sync
    {
      hide Inv, Load;
      var created := if faults.create then CreateFails(c) else Create(c);
      OnlyRenameAndDeleteChangeTheDocument(system, original, created);
      Do(created);
      if faults.create {
        return false;
      }
      var written := WriteAll(c, bytes, faults);
      if !written {
        return false;
      }
      var synced := if faults.sync then SyncFails(c) else Sync(c);
      OnlyRenameAndDeleteChangeTheDocument(system, original, synced);
      Do(synced);
      ok := !faults.sync;
    }

    /** A store either succeeds, and the document is its bytes, or fails, and the
        document is what it was; its temporary file is gone, unless removing it
        failed too. */
    method Store(bytes: Bytes, faults: Faults) returns (ok: bool)
      requires Valid()
      modifies this
      ensures Valid() && original == old(original)
      ensures Load(system) == if ok then Some(bytes) else old(Load(system))
      ensures ok <==> !faults.create && (faults.writeAfter.Some? ==> faults.writeAfter.value >= |bytes|)
                      && !faults.sync && !faults.rename
      ensures ok || !faults.remove ==> Temp(old(counter)) !in system.dir
    {
      var c := UniqueSuffix();
      StepKeepsInv(system, original, Begin(c, bytes));
      OnlyRenameAndDeleteChangeTheDocument(system, original, Begin(c, bytes));
      system := Apply(system, Begin(c, bytes));
      var written := WriteAndSync(c, bytes, faults);
      if !written {
        Discard(c, faults);
        return false;
      }
      assert CallHolds(system, c);
      var step := if faults.rename then RenameFails(c) else Rename(c);
      OnlyRenameAndDeleteChangeTheDocument(system, original, step);
      Do(step);
      if faults.rename {
        Discard(c, faults);
        return false;
      }
      ok := true;
    }

    /** Deleting an absent document succeeds. */
    method DeleteDocument(fails: bool) returns (ok: bool)
      requires Valid()
      modifies this`system
      ensures Valid() && Load(system) == if ok then None else old(Load(system))
      ensures !ok ==> fails
    {
      if fails {
        return false;
      }
      OnlyRenameAndDeleteChangeTheDocument(system, original, Delete);
      Do(Delete);
      ok := true;
    }
  }
}
