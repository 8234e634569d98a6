/**
 write_session and read_session of src/core/session.cpp: three files, written and renamed in
 steps that may each fail, and a crash that may come between any two of them.
 */
module SessionStore {
  import opened Options
  import opened JsonTree
  import opened JsonReader
  import opened JsonWriter
  import opened Model
  import opened SessionCodec
  import opened SessionRoundTrip
  import opened SessionDocument

  /** The contents of session.json, session.json.bak and session.json.tmp. */
  datatype Disk = Disk(primary: Option<string>, backup: Option<string>, temporary: Option<string>)

  /** Which step of a write fails. `torn` is how much reached the disk when the stream fails. */
  datatype Faults = Faults(
    directory: bool, removeLeftover: bool, open: bool, torn: Option<nat>, durability: bool,
    readPrimary: bool, rotate: bool, publish: bool, restore: bool, cleanUp: bool)

  /** The states the disk passes through, without the first, and what write_session returns. */
  datatype Run = Run(states: seq<Disk>, ok: bool)

  function Last(disk: Disk, states: seq<Disk>): Disk {
    if states == [] then disk else states[|states| - 1]
  }

  // ----- write_session

  function CleanUp(disk: Disk, faults: Faults): seq<Disk> {
    if faults.cleanUp then [] else [disk.(temporary := None)]
  }

  /** The temporary file grows byte by byte. */
  function Streaming(disk: Disk, text: string, count: nat): (states: seq<Disk>)
    requires count <= |text|
    ensures |states| == count + 1
    ensures forall i | 0 <= i <= count :: states[i] == disk.(temporary := Some(text[..i]))
  {
    seq(count + 1, i requires 0 <= i <= count => disk.(temporary := Some(text[..i])))
  }

  predicate Readable(format: NumberFormat, file: Option<string>) {
    file.Some? && Deserialize(format, file.value).Some?
  }

  /** The two renames, once the temporary file is complete. */
  function Publishing(format: NumberFormat, disk: Disk, faults: Faults): Run {
    var rotated := !faults.readPrimary && Readable(format, disk.primary);
    if rotated && faults.rotate then Run(CleanUp(disk, faults), false)
    else
      var moved := if rotated then disk.(primary := None, backup := disk.primary) else disk;
      var last := Replacing(moved, rotated, faults);
      Run((if rotated then [moved] else []) + last.states, last.ok)
  }

  /** The last rename, and what undoes the rotation when it fails. */
  function Replacing(disk: Disk, rotated: bool, faults: Faults): Run {
    if !faults.publish then Run([disk.(primary := disk.temporary, temporary := None)], true)
    else if !rotated then Run(CleanUp(disk, faults), false)
    else if faults.restore then Run([], false)
    else
      var restored := disk.(primary := disk.backup, backup := None);
      Run([restored] + CleanUp(restored, faults), false)
  }

  function TornLength(text: string, torn: Option<nat>): (count: nat)
    ensures count <= |text|
  {
    match torn
    case Some(n) => if n < |text| then n else |text|
    case None => |text|
  }

  /** Writing the temporary file, once the leftover one is gone, and publishing it. */
  function Filling(format: NumberFormat, disk: Disk, text: string, faults: Faults): Run {
    var count := TornLength(text, faults.torn);
    var streaming := Streaming(disk, text, count);
    var complete := disk.(temporary := Some(text[..count]));
    if faults.torn.Some? || faults.durability then Run(streaming + CleanUp(complete, faults), false)
    else
      var publishing := Publishing(format, complete, faults);
      Run(streaming + publishing.states, publishing.ok)
  }

  function Writing(format: NumberFormat, disk: Disk, text: string, faults: Faults): Run {
    if faults.directory || faults.removeLeftover then Run([], false)
    else
      var removed := disk.(temporary := None);
      if faults.open then Run([removed], false)
      else
        var filling := Filling(format, removed, text, faults);
        Run([removed] + filling.states, filling.ok)
  }

  // ----- read_session

  datatype Source = FromPrimary | FromInterruptedWrite | FromBackup | FromDefault

  datatype ReadResult = ReadResult(document: Document, source: Source, recoveredFromCorruption: bool)

  /** Files whose status or contents cannot be read, and whether the directory cannot. */
  datatype ReadFaults = ReadFaults(directory: bool, primary: bool, backup: bool, temporary: bool)

  function ReadFile(format: NumberFormat, file: Option<string>, fault: bool): Option<Document> {
    if file.None? || fault then None else Deserialize(format, file.value)
  }

  function ReadSession(format: NumberFormat, disk: Disk, defaultState: ApplicationState, faults: ReadFaults): ReadResult
  {
    var byDefault := Document(defaultState, "", true);
    if faults.directory then ReadResult(byDefault, FromDefault, true)
    else
      match ReadFile(format, disk.primary, faults.primary)
      case Some(document) => ReadResult(document, FromPrimary, false)
      case None =>
        match ReadFile(format, disk.temporary, faults.temporary)
        case Some(document) => ReadResult(document, FromInterruptedWrite, false)
        case None =>
          match ReadFile(format, disk.backup, faults.backup)
          case Some(document) => ReadResult(document, FromBackup, true)
          case None =>
            var found := disk.primary.Some? || disk.backup.Some? || disk.temporary.Some?;
            ReadResult(byDefault, FromDefault, found || faults.primary || faults.backup || faults.temporary)
  }

  const NO_FAULTS := ReadFaults(false, false, false, false)

  // ----- What a disk holds

  /** The tree of a file that reads as a session. It determines the state and the shutdown flag. */
  function Loaded(format: NumberFormat, file: Option<string>): Option<Json> {
    match file
    case None => None
    case Some(text) =>
      match Parse(format, text)
      case None => None
      case Some(root) => if Decode(root).Some? then Some(root) else None
  }

  /** The session a disk holds whatever the temporary file says. */
  function Current(format: NumberFormat, disk: Disk): Option<Json> {
    match Loaded(format, disk.primary)
    case Some(root) => Some(root)
    case None => Loaded(format, disk.backup)
  }

  /** The session read_session takes. */
  function Recovered(format: NumberFormat, disk: Disk): Option<Json> {
    match Loaded(format, disk.primary)
    case Some(root) => Some(root)
    case None =>
      match Loaded(format, disk.temporary)
      case Some(root) => Some(root)
      case None => Loaded(format, disk.backup)
  }

  /** The disk without the files that cannot be read. */
  function Seen(disk: Disk, faults: ReadFaults): Disk {
    Disk(if faults.primary then None else disk.primary,
         if faults.backup then None else disk.backup,
         if faults.temporary then None else disk.temporary)
  }

  /** read_session returns the session recovered from what can be read, and the default state only if there
      is none. It reports corruption exactly when neither primary nor temporary file reads although
      something is there. */
  lemma ReadsRecovered(format: NumberFormat, disk: Disk, defaultState: ApplicationState, faults: ReadFaults)
    ensures var seen, result := Seen(disk, faults), ReadSession(format, disk, defaultState, faults);
      && (if !faults.directory && Recovered(format, seen).Some? then
            var root := Recovered(format, seen).value;
            && result.source == (if Loaded(format, seen.primary).Some? then FromPrimary
                                 else if Loaded(format, seen.temporary).Some? then FromInterruptedWrite
                                 else FromBackup)
            && Decode(root) == Some(result.document.application)
            && result.document.cleanShutdown == CleanShutdownOf(root)
            && Parse(format, result.document.preservedJson) == Some(root)
          else result.source == FromDefault && result.document == Document(defaultState, "", true))
      && (result.recoveredFromCorruption <==>
            || faults.directory
            || (&& Loaded(format, seen.primary) == Loaded(format, seen.temporary) == None
                && (disk != Disk(None, None, None) || faults.primary || faults.backup || faults.temporary)))
  {
    var seen := Seen(disk, faults);
    FileLoads(format, disk.primary, faults.primary);
    FileLoads(format, disk.temporary, faults.temporary);
    FileLoads(format, disk.backup, faults.backup);
    hide ReadFile, Loaded, Decode, Parse;
  }

  lemma FileLoads(format: NumberFormat, file: Option<string>, fault: bool)
    ensures var document, loaded := ReadFile(format, file, fault), Loaded(format, if fault then None else file);
      && (document.Some? <==> loaded.Some?)
      && (loaded.Some? ==>
            && !fault && file.Some?
            && Decode(loaded.value) == Some(document.value.application)
            && document.value.cleanShutdown == CleanShutdownOf(loaded.value)
            && Parse(format, document.value.preservedJson) == loaded)
  {
    hide Decode, Parse;
  }

  // ----- Crash safety of one write

  /** What the temporary file holds in a state of a write of `root`. */
  predicate TemporaryOf(format: NumberFormat, state: Disk, root: Json) {
    Loaded(format, state.temporary) in {None, Some(root)}
  }

  /** A disk state that a crash may leave behind while `root` replaces what `disk` held. */
  predicate Safe(format: NumberFormat, disk: Disk, state: Disk, root: Json) {
    && Current(format, state) in {Current(format, disk), Some(root)}
    && Recovered(format, state) in {Current(format, disk), Some(root)}
    && TemporaryOf(format, state, root)
  }

  /** A text that reads as `root`, with or without its last byte, and reads as nothing when torn. */
  ghost predicate Whole(format: NumberFormat, text: string, root: Json) {
    forall count | 0 <= count <= |text| ::
      Loaded(format, Some(text[..count])) == if count + 1 >= |text| then Some(root) else None
  }

  lemma LinePrefix(format: NumberFormat, root: Json, count: nat)
    requires Printed(format, root) && root.Object? && Decode(root).Some?
    requires count <= |Dump(root)| + 1
    ensures Loaded(format, Some((Dump(root) + "\n")[..count])) == if count >= |Dump(root)| then Some(root) else None
  {
    var text := Dump(root) + "\n";
    LoadedWhen(format, text[..count], root);
    if count < |text| {
      TornLine(format, root, count);
    } else {
      ParseLine(format, root);
      assert text[..count] == text;
    }
  }

  lemma LineWhole(format: NumberFormat, root: Json)
    requires Printed(format, root) && root.Object? && Decode(root).Some?
    ensures Whole(format, Dump(root) + "\n", root)
  {
    forall count | 0 <= count <= |Dump(root)| + 1
      ensures Loaded(format, Some((Dump(root) + "\n")[..count])) == if count >= |Dump(root)| then Some(root) else None
    {
      LinePrefix(format, root, count);
    }
  }

  lemma LoadedWhen(format: NumberFormat, text: string, root: Json)
    requires Decode(root).Some?
    ensures Parse(format, text) == Some(root) ==> Loaded(format, Some(text)) == Some(root)
    ensures Parse(format, text) == None ==> Loaded(format, Some(text)) == None
  {
  }

  /** What serialize_session writes is such a text. */
  lemma SerializedWhole(format: NumberFormat, document: Document)
    requires SoundFormat(format) && Writable(format, document)
    ensures Whole(format, Serialize(format, document), Written(format, document))
  {
    WrittenPrinted(format, document);
    StorableOverOwnRoot(document.application, PreservedRoot(format, document.preservedJson));
    WrittenDecodes(document.application, PreservedRoot(format, document.preservedJson), document.cleanShutdown);
    LineWhole(format, Written(format, document));
  }

  lemma KeptSafe(format: NumberFormat, disk: Disk, faults: Faults, root: Json)
    requires Loaded(format, disk.temporary) == Some(root)
    ensures Safe(format, disk, disk, root)
    ensures forall state | state in CleanUp(disk, faults) :: Safe(format, disk, state, root)
  {
  }

  lemma RotationSafe(format: NumberFormat, disk: Disk, faults: Faults, root: Json)
    requires Loaded(format, disk.temporary) == Some(root) && Loaded(format, disk.primary).Some?
    ensures var moved := disk.(primary := None, backup := disk.primary);
      var restored := moved.(primary := moved.backup, backup := None);
      && Safe(format, disk, moved, root)
      && Safe(format, disk, moved.(primary := moved.temporary, temporary := None), root)
      && Safe(format, disk, restored, root)
      && forall state | state in CleanUp(restored, faults) :: Safe(format, disk, state, root)
  {
  }

  lemma PublishingSafe(format: NumberFormat, disk: Disk, faults: Faults, root: Json)
    requires Loaded(format, disk.temporary) == Some(root)
    ensures var run := Publishing(format, disk, faults);
      && (forall state | state in run.states :: Safe(format, disk, state, root))
      && (run.ok ==> Last(disk, run.states).primary == disk.temporary)
      && (run.ok ==> Last(disk, run.states).temporary == None)
  {
    KeptSafe(format, disk, faults, root);
    assert Readable(format, disk.primary) ==> Loaded(format, disk.primary).Some?;
    if !faults.readPrimary && Readable(format, disk.primary) {
      RotationSafe(format, disk, faults, root);
    } else {
      assert Safe(format, disk, disk.(primary := disk.temporary, temporary := None), root);
    }
  }

  lemma FillingSafe(format: NumberFormat, disk: Disk, text: string, root: Json, faults: Faults)
    requires Whole(format, text, root) && disk.temporary == None
    ensures var run := Filling(format, disk, text, faults);
      && run.states != []
      && (forall state | state in run.states :: Safe(format, disk, state, root))
      && (run.ok ==> Last(disk, run.states).temporary == None)
      && (run.ok ==> Loaded(format, Last(disk, run.states).primary) == Some(root))
  {
    var count := TornLength(text, faults.torn);
    var complete := disk.(temporary := Some(text[..count]));
    StreamingSafe(format, disk, text, root, count);
    assert complete == Streaming(disk, text, count)[count];
    assert complete.(temporary := None) == disk;
    NoTemporary(format, complete, root);
    SameCurrent(format, disk, complete, root);
    assert count == |text| ==> Loaded(format, complete.temporary) == Some(root);
    hide Loaded, Publishing, Whole, Safe, TornLength;
    if faults.torn.None? && !faults.durability {
      TornAt(text, faults.torn);
      PublishingSafe(format, complete, faults, root);
    }
  }

  lemma TornAt(text: string, torn: Option<nat>)
    ensures torn.None? ==> TornLength(text, torn) == |text|
  {
  }

  lemma StreamingSafe(format: NumberFormat, disk: Disk, text: string, root: Json, count: nat)
    requires Whole(format, text, root) && disk.temporary == None && count <= |text|
    ensures forall state | state in Streaming(disk, text, count) :: Safe(format, disk, state, root)
  {
    forall i | 0 <= i <= count ensures Safe(format, disk, Streaming(disk, text, count)[i], root) {
      assert Loaded(format, Some(text[..i])) == if i + 1 >= |text| then Some(root) else None;
    }
  }

  lemma SameCurrent(format: NumberFormat, disk: Disk, other: Disk, root: Json)
    requires Current(format, other) == Current(format, disk)
    ensures forall state | Safe(format, other, state, root) :: Safe(format, disk, state, root)
  {
  }

  lemma NoTemporary(format: NumberFormat, disk: Disk, root: Json)
    ensures Safe(format, disk, disk.(temporary := None), root)
    ensures Current(format, disk.(temporary := None)) == Current(format, disk)
  {
  }

  /** Whatever step fails and wherever a crash comes, once the leftover temporary file is gone the
      session read is the one the disk held before or the one being written. */
  lemma CrashSafe(format: NumberFormat, disk: Disk, text: string, root: Json, faults: Faults)
    requires Whole(format, text, root)
    ensures var run := Writing(format, disk, text, faults);
      && (forall state | state in run.states :: Safe(format, disk, state, root))
      && (run.ok ==> Last(disk, run.states).temporary == None)
      && (run.ok ==> Loaded(format, Last(disk, run.states).primary) == Some(root))
  {
    hide Filling, Loaded, Whole;
    NoTemporary(format, disk, root);
    if !faults.directory && !faults.removeLeftover && !faults.open {
      var removed := disk.(temporary := None);
      var filling := Filling(format, removed, text, faults);
      FillingSafe(format, removed, text, root, faults);
      forall state | state in filling.states ensures Safe(format, disk, state, root) {
        assert Safe(format, removed, state, root);
      }
    }
  }

  // ----- What a write leaves behind

  /** A primary that the write can read and that reads as a session. */
  predicate Rotates(format: NumberFormat, disk: Disk, faults: Faults) {
    !faults.readPrimary && Loaded(format, disk.primary).Some?
  }

  lemma ReadableLoads(format: NumberFormat, file: Option<string>)
    ensures Readable(format, file) <==> Loaded(format, file).Some?
  {
    hide Decode, Parse;
  }

  /** A write succeeds exactly when none of its steps fails. It leaves the text as the primary and the former
      primary as the backup, unless that does not read: then the backup stays what it was. */
  lemma SuccessLeaves(format: NumberFormat, disk: Disk, text: string, faults: Faults)
    ensures var run := Writing(format, disk, text, faults);
      && (run.ok <==>
            && !faults.directory && !faults.removeLeftover && !faults.open && faults.torn.None? && !faults.durability
            && !(Rotates(format, disk, faults) && faults.rotate) && !faults.publish)
      && (run.ok ==>
            Last(disk, run.states)
            == Disk(Some(text), if Rotates(format, disk, faults) then disk.primary else disk.backup, None))
  {
    hide Loaded, Readable;
    ReadableLoads(format, disk.primary);
    assert text[..|text|] == text;
  }

  /** A failed write leaves the primary and the backup alone, but where the last rename failed after a rotation:
      then the primary is back and the backup gone, or, if it could not be put back, it is the backup and the
      complete text is kept beside it. */
  lemma FailureLeaves(format: NumberFormat, disk: Disk, text: string, faults: Faults)
    requires !Writing(format, disk, text, faults).ok
    ensures var last := Last(disk, Writing(format, disk, text, faults).states);
      var removed := !faults.directory && !faults.removeLeftover;
      var streamed := removed && !faults.open;
      var rotated :=
        streamed && faults.torn.None? && !faults.durability && Rotates(format, disk, faults) && !faults.rotate;
      && last.primary == (if rotated && faults.restore then None else disk.primary)
      && last.backup == (if !rotated then disk.backup else if faults.restore then disk.primary else None)
      && last.temporary ==
           if !removed then disk.temporary
           else if !streamed then None
           else if (rotated && faults.restore) || faults.cleanUp then Some(text[..TornLength(text, faults.torn)])
           else None
  {
    hide Loaded, Readable;
    ReadableLoads(format, disk.primary);
    assert text[..|text|] == text;
  }

  /** A crash may leave every prefix of the text, up to the one that was written, in the temporary file. */
  lemma EveryPrefixSeen(format: NumberFormat, disk: Disk, text: string, faults: Faults, count: nat)
    requires !faults.directory && !faults.removeLeftover && !faults.open && count <= TornLength(text, faults.torn)
    ensures disk.(temporary := Some(text[..count])) in Writing(format, disk, text, faults).states
  {
    hide Publishing;
    var removed := disk.(temporary := None);
    var streaming := Streaming(removed, text, TornLength(text, faults.torn));
    assert streaming[count] == disk.(temporary := Some(text[..count]));
    assert Writing(format, disk, text, faults).states[1 + count] == streaming[count];
  }

  // ----- Whole runs

  /** One call of write_session: it runs to its end, or stops after some of its disk states. */
  datatype Attempt = Attempt(text: string, root: Json, faults: Faults, crash: Option<nat>)

  /** The call for a document. */
  function AttemptOf(format: NumberFormat, document: Document, faults: Faults, crash: Option<nat>): Attempt {
    Attempt(Serialize(format, document), Written(format, document), faults, crash)
  }

  function Outcome(format: NumberFormat, disk: Disk, attempt: Attempt): Run {
    var run := Writing(format, disk, attempt.text, attempt.faults);
    match attempt.crash
    case None => run
    case Some(count) => Run(if count < |run.states| then run.states[..count] else run.states, false)
  }

  function Next(format: NumberFormat, disk: Disk, attempt: Attempt): Disk {
    Last(disk, Outcome(format, disk, attempt).states)
  }

  function After(format: NumberFormat, disk: Disk, attempts: seq<Attempt>): Disk
    decreases |attempts|
  {
    if attempts == [] then disk else After(format, Next(format, disk, attempts[0]), attempts[1..])
  }

  /** Every attempt writes a document that may be written. */
  ghost predicate AllWritable(format: NumberFormat, attempts: seq<Attempt>) {
    forall i | 0 <= i < |attempts| :: WritesDocument(format, attempts[i])
  }

  ghost predicate WritesDocument(format: NumberFormat, attempt: Attempt) {
    exists document ::
      Writable(format, document) && attempt == AttemptOf(format, document, attempt.faults, attempt.crash)
  }

  lemma WritesWhole(format: NumberFormat, attempt: Attempt)
    requires SoundFormat(format) && WritesDocument(format, attempt)
    ensures Whole(format, attempt.text, attempt.root)
  {
    var document :|
      Writable(format, document) && attempt == AttemptOf(format, document, attempt.faults, attempt.crash);
    SerializedWhole(format, document);
  }

  /** What is read, now and once the temporary file is gone, is one of `accepted`. */
  predicate Holds(format: NumberFormat, disk: Disk, accepted: set<Option<Json>>) {
    Current(format, disk) in accepted && Recovered(format, disk) in accepted
  }

  lemma NextIsAState(format: NumberFormat, disk: Disk, attempt: Attempt)
    ensures Next(format, disk, attempt) == disk
         || Next(format, disk, attempt) in Writing(format, disk, attempt.text, attempt.faults).states
  {
    var states := Outcome(format, disk, attempt).states;
    if states != [] {
      assert states[|states| - 1] in Writing(format, disk, attempt.text, attempt.faults).states;
    }
  }

  lemma AttemptHolds(format: NumberFormat, disk: Disk, attempt: Attempt, accepted: set<Option<Json>>)
    requires Whole(format, attempt.text, attempt.root)
    requires Holds(format, disk, accepted)
    ensures Holds(format, Next(format, disk, attempt), accepted + {Some(attempt.root)})
  {
    hide Writing, Outcome, Next, Current, Recovered, TemporaryOf, Whole;
    CrashSafe(format, disk, attempt.text, attempt.root, attempt.faults);
    NextIsAState(format, disk, attempt);
  }

  lemma SuccessHolds(format: NumberFormat, disk: Disk, attempt: Attempt)
    requires Whole(format, attempt.text, attempt.root)
    requires Outcome(format, disk, attempt).ok
    ensures Holds(format, Next(format, disk, attempt), {Some(attempt.root)})
  {
    hide Writing, Whole, Safe, Loaded;
    CrashSafe(format, disk, attempt.text, attempt.root, attempt.faults);
  }

  /** The sessions some attempts write. */
  function Roots(attempts: seq<Attempt>): (roots: set<Option<Json>>) {
    set i | 0 <= i < |attempts| :: Some(attempts[i].root)
  }

  lemma RootsCons(attempts: seq<Attempt>)
    requires attempts != []
    ensures Roots(attempts) == {Some(attempts[0].root)} + Roots(attempts[1..])
  {
    assert attempts == [attempts[0]] + attempts[1..];
    forall root | root in Roots(attempts[1..]) ensures root in Roots(attempts) {
      var i :| 0 <= i < |attempts[1..]| && root == Some(attempts[1..][i].root);
      assert Some(attempts[i + 1].root) == root;
    }
  }

  lemma FirstHolds(format: NumberFormat, disk: Disk, attempts: seq<Attempt>, accepted: set<Option<Json>>)
    requires SoundFormat(format) && attempts != [] && AllWritable(format, attempts)
    requires Holds(format, disk, accepted)
    ensures Holds(format, Next(format, disk, attempts[0]), accepted + {Some(attempts[0].root)})
  {
    hide Holds, Next, WritesDocument;
    assert WritesDocument(format, attempts[0]);
    WritesWhole(format, attempts[0]);
    AttemptHolds(format, disk, attempts[0], accepted);
  }

  lemma GrowAccepted(accepted: set<Option<Json>>, attempts: seq<Attempt>)
    requires attempts != []
    ensures accepted + {Some(attempts[0].root)} + Roots(attempts[1..]) == accepted + Roots(attempts)
  {
    RootsCons(attempts);
  }

  lemma {:induction false} RunHolds(
    format: NumberFormat, disk: Disk, attempts: seq<Attempt>, accepted: set<Option<Json>>)
    requires SoundFormat(format) && AllWritable(format, attempts)
    requires Holds(format, disk, accepted)
    ensures Holds(format, After(format, disk, attempts), accepted + Roots(attempts))
    decreases |attempts|
  {
    hide Holds, AllWritable;
    if attempts == [] {
      assert accepted + Roots(attempts) == accepted;
    } else {
      FirstHolds(format, disk, attempts, accepted);
      AllWritableFrom(format, attempts, 1);
      RunHolds(format, Next(format, disk, attempts[0]), attempts[1..], accepted + {Some(attempts[0].root)});
      GrowAccepted(accepted, attempts);
    }
  }

  lemma {:induction false} AfterSplit(format: NumberFormat, disk: Disk, attempts: seq<Attempt>, k: nat)
    requires k <= |attempts|
    ensures After(format, disk, attempts) == After(format, After(format, disk, attempts[..k]), attempts[k..])
    decreases k
  {
    if k > 0 {
      AfterSplit(format, Next(format, disk, attempts[0]), attempts[1..], k - 1);
      assert attempts[..k][1..] == attempts[1..][..k - 1];
      assert attempts[1..][k - 1..] == attempts[k..];
    } else {
      assert attempts[k..] == attempts;
    }
  }

  /** From any disk, after any writes, failures and crashes, the session read is the one the disk held or
      would hold without its temporary file, or one of those attempted. If primary or backup reads at the
      start, it is never the default state. */
  lemma NothingLost(format: NumberFormat, disk: Disk, attempts: seq<Attempt>, defaultState: ApplicationState)
    requires SoundFormat(format) && AllWritable(format, attempts)
    ensures var final := After(format, disk, attempts);
      && Recovered(format, final) in {Recovered(format, disk), Current(format, disk)} + Roots(attempts)
      && (Current(format, disk).Some? ==> ReadSession(format, final, defaultState, NO_FAULTS).source != FromDefault)
  {
    hide AllWritable, After, ReadSession, Loaded;
    RunHolds(format, disk, attempts, {Recovered(format, disk), Current(format, disk)});
    ReadsRecovered(format, After(format, disk, attempts), defaultState, NO_FAULTS);
  }

  lemma RunAfterSuccess(format: NumberFormat, disk: Disk, attempts: seq<Attempt>)
    requires SoundFormat(format) && attempts != [] && AllWritable(format, attempts)
    requires Outcome(format, disk, attempts[0]).ok
    ensures Holds(format, After(format, disk, attempts), Roots(attempts))
  {
    assert WritesDocument(format, attempts[0]);
    WritesWhole(format, attempts[0]);
    SuccessHolds(format, disk, attempts[0]);
    AllWritableFrom(format, attempts, 1);
    RunHolds(format, Next(format, disk, attempts[0]), attempts[1..], {Some(attempts[0].root)});
    RootsCons(attempts);
  }

  lemma AllWritableFrom(format: NumberFormat, attempts: seq<Attempt>, k: nat)
    requires k <= |attempts| && AllWritable(format, attempts)
    ensures AllWritable(format, attempts[k..])
  {
    assert forall i | 0 <= i < |attempts| - k :: attempts[k..][i] == attempts[i + k];
  }

  /** From any disk at all: once write k has succeeded, no later sequence of writes, failures and
      crashes makes read_session return anything older than it, or fall back to the default. */
  lemma SuccessIsDurable(
    format: NumberFormat, disk: Disk, attempts: seq<Attempt>, k: nat, defaultState: ApplicationState)
    requires SoundFormat(format) && AllWritable(format, attempts) && k < |attempts|
    requires Outcome(format, After(format, disk, attempts[..k]), attempts[k]).ok
    ensures var final := After(format, disk, attempts);
      && Recovered(format, final) in Roots(attempts[k..])
      && ReadSession(format, final, defaultState, NO_FAULTS).source != FromDefault
  {
    AllWritableFrom(format, attempts, k);
    RunAfterSuccess(format, After(format, disk, attempts[..k]), attempts[k..]);
    AfterSplit(format, disk, attempts, k);
    ReadsRecovered(format, After(format, disk, attempts), defaultState, NO_FAULTS);
  }

  /** The backup is the session before: when a write has succeeded over a primary that reads, and the new
      primary is damaged, the former primary is read. */
  lemma FormerIsBackup(format: NumberFormat, disk: Disk, attempt: Attempt, damaged: Option<string>)
    requires Outcome(format, disk, attempt).ok && Rotates(format, disk, attempt.faults)
    requires Loaded(format, damaged) == None
    ensures Recovered(format, Next(format, disk, attempt).(primary := damaged)) == Loaded(format, disk.primary)
  {
    hide Writing, Loaded;
    SuccessLeaves(format, disk, attempt.text, attempt.faults);
    assert Loaded(format, None) == None by { NothingLoads(format); }
  }

  lemma NothingLoads(format: NumberFormat)
    ensures Loaded(format, None) == None
  {
  }

  /** Two sessions are kept: after two writes that succeed, from any disk, the second is read, and the first
      if the second's file is damaged. */
  lemma TwoGenerations(format: NumberFormat, disk: Disk, first: Attempt, second: Attempt, damaged: Option<string>)
    requires SoundFormat(format) && WritesDocument(format, first) && WritesDocument(format, second)
    requires Outcome(format, disk, first).ok && !second.faults.readPrimary
    requires Outcome(format, Next(format, disk, first), second).ok && Loaded(format, damaged) == None
    ensures var final := Next(format, Next(format, disk, first), second);
      && Recovered(format, final) == Some(second.root)
      && Recovered(format, final.(primary := damaged)) == Some(first.root)
  {
    hide Writing, Loaded, WritesDocument, Next, Recovered, Outcome, Whole, SoundFormat;
    var middle := Next(format, disk, first);
    WritesWhole(format, first);
    WritesWhole(format, second);
    PrimaryAfter(format, disk, first);
    PrimaryAfter(format, middle, second);
    FormerIsBackup(format, middle, second, damaged);
  }

  lemma PrimaryAfter(format: NumberFormat, disk: Disk, attempt: Attempt)
    requires Whole(format, attempt.text, attempt.root) && Outcome(format, disk, attempt).ok
    ensures var next := Next(format, disk, attempt);
      Loaded(format, next.primary) == Recovered(format, next) == Some(attempt.root)
  {
    hide Writing, Loaded;
    CrashSafe(format, disk, attempt.text, attempt.root, attempt.faults);
  }

  /** `CrashSafe` starts after the removal of a leftover temporary file, and has to: what a disk
      recovers is its current session exactly when no leftover comes between primary and backup. */
  lemma RecoveredIsCurrent(format: NumberFormat, disk: Disk)
    ensures Recovered(format, disk) == Current(format, disk)
      <==> Loaded(format, disk.primary).Some? || Loaded(format, disk.temporary) in {None, Loaded(format, disk.backup)}
  {
  }

  const EMPTY := ApplicationState(1, [], "", WindowPlacement(0, 0, 0, 0, false), DEFAULT_SIDEBAR_WIDTH, [], 0)

  /** A crash right after the first step of a write leaves the current session, leftover or not. */
  lemma LeftoverRemoved(format: NumberFormat, disk: Disk, attempt: Attempt)
    requires attempt.crash == Some(1) && !attempt.faults.directory && !attempt.faults.removeLeftover
    ensures Next(format, disk, attempt) == disk.(temporary := None)
    ensures Recovered(format, Next(format, disk, attempt)) == Current(format, disk)
    ensures Next(format, disk, attempt) in Writing(format, disk, attempt.text, attempt.faults).states
  {
    hide Filling;
    var run := Writing(format, disk, attempt.text, attempt.faults);
    assert run.states[0] == disk.(temporary := None);
  }

  const NO_WRITE_FAULTS := Faults(false, false, false, None, false, false, false, false, false, false)

  /** One write, whatever fails and wherever a crash comes, leaves the session that was read before it or the
      one it writes if and only if what was read was the current session, or the current one is what it
      writes: a session that only a leftover temporary file holds is removed before anything replaces it. */
  lemma OneWriteKeepsIff(format: NumberFormat, disk: Disk, text: string, root: Json)
    requires Whole(format, text, root)
    ensures (forall faults, state | state in Writing(format, disk, text, faults).states ::
               Recovered(format, state) in {Recovered(format, disk), Some(root)})
      <==> Recovered(format, disk) == Current(format, disk) || Current(format, disk) == Some(root)
  {
    hide Writing, Recovered, Current, Whole, TemporaryOf, Next;
    var crash := Attempt(text, root, NO_WRITE_FAULTS, Some(1));
    LeftoverRemoved(format, disk, crash);
    forall faults, state | state in Writing(format, disk, text, faults).states
      ensures Recovered(format, state) in {Current(format, disk), Some(root)}
    {
      CrashSafe(format, disk, text, root, faults);
    }
  }

  /** A session to write that is not `current`. */
  lemma OtherSession(format: NumberFormat, current: Option<Json>) returns (document: Document)
    requires SoundFormat(format)
    ensures Writable(format, document) && Some(Written(format, document)) != current
  {
    var clean, dirty := Document(EMPTY, "", true), Document(EMPTY, "", false);
    EmptyWritable(format, true);
    EmptyWritable(format, false);
    hide Writable, Written, CleanShutdownOf;
    WrittenFlag(format, clean);
    WrittenFlag(format, dirty);
    document := if Some(Written(format, clean)) != current then clean else dirty;
  }

  lemma EmptyWritable(format: NumberFormat, cleanShutdown: bool)
    ensures Writable(format, Document(EMPTY, "", cleanShutdown))
  {
  }

  lemma WrittenFlag(format: NumberFormat, document: Document)
    ensures CleanShutdownOf(Written(format, document)) == document.cleanShutdown
  {
    hide Encode, CleanShutdownOf;
    WrittenDecodes(document.application, PreservedRoot(format, document.preservedJson), document.cleanShutdown);
  }

  lemma CrashedWrite(format: NumberFormat, disk: Disk) returns (attempts: seq<Attempt>)
    requires SoundFormat(format)
    ensures AllWritable(format, attempts) && Current(format, disk) !in Roots(attempts)
    ensures After(format, disk, attempts) == disk.(temporary := None)
    ensures Recovered(format, After(format, disk, attempts)) == Current(format, disk)
  {
    hide Writable, Serialize, Written, Current, Recovered, Next;
    var document := OtherSession(format, Current(format, disk));
    var attempt := AttemptOf(format, document, NO_WRITE_FAULTS, Some(1));
    attempts := [attempt];
    CrashAfterRemoval(format, disk, document);
    assert After(format, Next(format, disk, attempt), []) == Next(format, disk, attempt);
    assert WritesDocument(format, attempt);
  }

  /** Over all runs: what is read is always the session read at the start or one attempted if and only if
      at the start no leftover comes between primary and backup. */
  lemma RunsKeepIff(format: NumberFormat, disk: Disk)
    requires SoundFormat(format)
    ensures (forall attempts | AllWritable(format, attempts) ::
               Recovered(format, After(format, disk, attempts)) in {Recovered(format, disk)} + Roots(attempts))
      <==> Recovered(format, disk) == Current(format, disk)
  {
    hide AllWritable, After, Current, Recovered;
    if Recovered(format, disk) == Current(format, disk) {
      forall attempts | AllWritable(format, attempts)
        ensures Recovered(format, After(format, disk, attempts)) in {Recovered(format, disk)} + Roots(attempts)
      {
        RunHolds(format, disk, attempts, {Recovered(format, disk)});
      }
    } else {
      var attempts := CrashedWrite(format, disk);
    }
  }

  /** Over all runs: the default state is never read if and only if primary or backup reads at the start. */
  lemma NeverDefaultIff(format: NumberFormat, disk: Disk, defaultState: ApplicationState)
    requires SoundFormat(format)
    ensures (forall attempts | AllWritable(format, attempts) ::
               ReadSession(format, After(format, disk, attempts), defaultState, NO_FAULTS).source != FromDefault)
      <==> Current(format, disk).Some?
  {
    hide AllWritable, After, Current, Recovered, ReadSession;
    if Current(format, disk).Some? {
      forall attempts | AllWritable(format, attempts)
        ensures ReadSession(format, After(format, disk, attempts), defaultState, NO_FAULTS).source != FromDefault
      {
        NothingLost(format, disk, attempts, defaultState);
      }
    } else {
      var attempts := CrashedWrite(format, disk);
      ReadsRecovered(format, After(format, disk, attempts), defaultState, NO_FAULTS);
    }
  }

  /** A disk that loses a session: the primary is unreadable and the complete leftover of an earlier write
      is read, not the older backup. The next write, whatever it writes, removes the leftover first; after
      a crash there the backup is read. */
  lemma LeftoverLost(format: NumberFormat)
    requires SoundFormat(format)
    ensures var leftover, backup := Document(EMPTY, "", true), Document(EMPTY, "", false);
      var disk := Disk(Some(""), Some(Serialize(format, backup)), Some(Serialize(format, leftover)));
      && Recovered(format, disk) == Some(Written(format, leftover)) != Some(Written(format, backup))
      && forall document ::
           Recovered(format, Next(format, disk, AttemptOf(format, document, NO_WRITE_FAULTS, Some(1))))
             == Some(Written(format, backup))
  {
    var leftover, backup := Document(EMPTY, "", true), Document(EMPTY, "", false);
    var disk := Disk(Some(""), Some(Serialize(format, backup)), Some(Serialize(format, leftover)));
    EmptyReadsAsNothing(format);
    EmptyWritable(format, true);
    EmptyWritable(format, false);
    hide Written, Serialize, Writable, Loaded, Next, CleanShutdownOf, AttemptOf;
    SerializedLoads(format, leftover);
    SerializedLoads(format, backup);
    forall document ensures
      Recovered(format, Next(format, disk, AttemptOf(format, document, NO_WRITE_FAULTS, Some(1))))
        == Some(Written(format, backup))
    {
      CrashAfterRemoval(format, disk, document);
    }
  }

  lemma CrashAfterRemoval(format: NumberFormat, disk: Disk, document: Document)
    ensures var next := Next(format, disk, AttemptOf(format, document, NO_WRITE_FAULTS, Some(1)));
      next == disk.(temporary := None) && Recovered(format, next) == Current(format, disk)
  {
    hide Recovered, Current, Next;
    LeftoverRemoved(format, disk, AttemptOf(format, document, NO_WRITE_FAULTS, Some(1)));
  }

  lemma EmptyReadsAsNothing(format: NumberFormat)
    ensures Loaded(format, Some("")) == None
  {
    assert Parse(format, "") == None;
  }

  lemma SerializedLoads(format: NumberFormat, document: Document)
    requires SoundFormat(format) && Writable(format, document)
    ensures Loaded(format, Some(Serialize(format, document))) == Some(Written(format, document))
    ensures CleanShutdownOf(Written(format, document)) == document.cleanShutdown
  {
    hide Serialize, Writable, Written, Loaded, CleanShutdownOf;
    WrittenFlag(format, document);
    SerializedWhole(format, document);
    assert Serialize(format, document)[..|Serialize(format, document)|] == Serialize(format, document);
  }

  // ----- write_session, step by step

  class Store {
    const format: NumberFormat
    var primary: Option<string>
    var backup: Option<string>
    var temporary: Option<string>
    /** Every state the disk has been in; a crash leaves the last one reached. */
    ghost var trace: seq<Disk>

    constructor (format: NumberFormat, disk: Disk)
      ensures this.format == format && Contents() == disk && trace == []
    {
      this.format := format;
      primary, backup, temporary := disk.primary, disk.backup, disk.temporary;
      trace := [];
    }

    ghost function Contents(): Disk
      reads this
    {
      Disk(primary, backup, temporary)
    }

    /** std::filesystem::remove of the temporary file: a missing file is no error. */
    method RemoveTemporary(fault: bool) returns (ok: bool)
      modifies this`temporary, this`trace
      ensures ok == !fault
      ensures Contents() == if fault then old(Contents()) else old(Contents()).(temporary := None)
      ensures trace == old(trace) + if fault then [] else [Contents()]
    {
      if fault { return false; }
      temporary := None;
      trace := trace + [Contents()];
      return true;
    }

    /** The stream writes its bytes in order; a torn stream stops early. */
    method Stream(text: string, torn: Option<nat>) returns (ok: bool)
      modifies this`temporary, this`trace
      ensures ok == torn.None?
      ensures var count := TornLength(text, torn);
        && Contents() == old(Contents()).(temporary := Some(text[..count]))
        && trace == old(trace) + Streaming(old(Contents()), text, count)
    {
      var count := TornLength(text, torn);
      ghost var start := Contents();
      temporary := Some("");
      assert text[..0] == "";
      trace := trace + [Contents()];
      assert Streaming(start, text, 0) == [Contents()];
      for i := 0 to count
        invariant Contents() == start.(temporary := Some(text[..i]))
        invariant trace == old(trace) + Streaming(start, text, i)
      {
        temporary := Some(temporary.value + [text[i]]);
        assert text[..i] + [text[i]] == text[..i + 1];
        trace := trace + [Contents()];
        assert Streaming(start, text, i) + [Contents()] == Streaming(start, text, i + 1);
      }
      return torn.None?;
    }

    method WriteSession(document: Document, faults: Faults) returns (ok: bool)
      modifies this
      ensures var run := Writing(format, old(Contents()), Serialize(format, document), faults);
        && ok == run.ok
        && trace == old(trace) + run.states
        && Contents() == Last(old(Contents()), run.states)
    {
      var text := SerializeSession(format, document);
      ok := WriteText(text, faults);
    }

    /** write_session for the text serialize_session produces. */
    method WriteText(text: string, faults: Faults) returns (ok: bool)
      modifies this
      ensures var run := Writing(format, old(Contents()), text, faults);
        && ok == run.ok
        && trace == old(trace) + run.states
        && Contents() == Last(old(Contents()), run.states)
    {
      ghost var start, before := Contents(), trace;
      if faults.directory { return false; }
      ok := RemoveTemporary(faults.removeLeftover);
      if !ok { return false; }
      ghost var removed := Contents();
      assert removed == Last(start, [removed]);
      if faults.open { return false; }
      ok := Fill(text, faults);
      JoinStates(before, start, [removed], Filling(format, removed, text, faults).states);
    }

    method Fill(text: string, faults: Faults) returns (ok: bool)
      modifies this
      ensures var run := Filling(format, old(Contents()), text, faults);
        && ok == run.ok
        && trace == old(trace) + run.states
        && Contents() == Last(old(Contents()), run.states)
    {
      ghost var start, before := Contents(), trace;
      ghost var streaming := Streaming(start, text, TornLength(text, faults.torn));
      ok := Stream(text, faults.torn);
      ghost var complete := Contents();
      assert complete == Last(start, streaming);
      if !ok {
        var removed := RemoveTemporary(faults.cleanUp);
        JoinStates(before, start, streaming, CleanUp(complete, faults));
        return false;
      }
      if faults.durability {
        var removed := RemoveTemporary(faults.cleanUp);
        JoinStates(before, start, streaming, CleanUp(complete, faults));
        return false;
      }
      ok := Publish(faults);
      JoinStates(before, start, streaming, Publishing(format, complete, faults).states);
    }

    static lemma JoinStates(before: seq<Disk>, start: Disk, first: seq<Disk>, second: seq<Disk>)
      ensures (before + first) + second == before + (first + second)
      ensures Last(Last(start, first), second) == Last(start, first + second)
    {
    }

    /** Rotate a primary that parses into the backup, then move the temporary file into its place. */
    method Publish(faults: Faults) returns (ok: bool)
      modifies this
      ensures var run := Publishing(format, old(Contents()), faults);
        && ok == run.ok
        && trace == old(trace) + run.states
        && Contents() == Last(old(Contents()), run.states)
    {
      ghost var start, before := Contents(), trace;
      var rotated := false;
      if !faults.readPrimary && primary.Some? {
        var readBack := DeserializeSession(format, primary.value);
        rotated := readBack.Some?;
      }
      if rotated {
        if faults.rotate {
          var removed := RemoveTemporary(faults.cleanUp);
          return false;
        }
        backup, primary := primary, None;
        trace := trace + [Contents()];
      }
      ghost var moved := Contents();
      ok := Replace(rotated, faults);
      JoinStates(before, start, if rotated then [moved] else [], Replacing(moved, rotated, faults).states);
    }

    method Replace(rotated: bool, faults: Faults) returns (ok: bool)
      modifies this
      ensures var run := Replacing(old(Contents()), rotated, faults);
        && ok == run.ok
        && trace == old(trace) + run.states
        && Contents() == Last(old(Contents()), run.states)
    {
      if !faults.publish {
        primary, temporary := temporary, None;
        trace := trace + [Contents()];
        return true;
      }
      if rotated {
        if faults.restore { return false; }
        primary, backup := backup, None;
        trace := trace + [Contents()];
      }
      var removed := RemoveTemporary(faults.cleanUp);
      return false;
    }
  }
}
