/** Publishing a signed document: the temporary file, its validation, the atomic rename, and
    the signature row, with a failure or a crash possible at every step. */
module Publication {
  import opened Records

  datatype Profile = PadesBB | PadesBT

  /** Names carry the fresh signature identifier. */
  datatype Name = Temporary(sig: Id) | Final(sig: Id)

  datatype Content = Blank | Partial | Validated(profile: Profile)

  /** The columns of a signature row that point at its document. */
  datatype Row = Row(file: Name, profile: Profile)

  /** Why a call ended. */
  datatype Ending =
    | NotPrepared     // the temporary file could not be created
    | CloseFailed     // it was created, and closing it raised
    | PadesFailed     // signing, validating or renaming failed
    | RecordFailed    // writing the row or the audit events failed
    | CommitFailed    // the commit raised, whether or not it took effect
    | Success

  /** How far a call has got. */
  datatype Stage =
    | Started
    | Opened
    | Ready
    | Writing
    | Signed(profile: Profile)
    | Published(profile: Profile)
    | Recorded(row: Row)
    | Ended(ending: Ending)

  type Files = map<Name, Content>

  /** Durable files and rows, and the calls in progress by signature identifier. */
  datatype World = World(files: Files, rows: map<Id, Row>, calls: map<Id, Stage>)

  /** The signature identifier, and what happened. */
  datatype Step =
    | Start(sig: Id)
    | CreateTemporary(sig: Id, ok: bool)
    | CloseTemporary(sig: Id, ok: bool)
    | Write(sig: Id)
    | Finish(sig: Id, validated: Option<Profile>)
    | Rename(sig: Id, ok: bool)
    | Record(sig: Id, ok: bool)
    | Commit(sig: Id, took: bool, raised: bool)
    | Crash(sig: Id)

  function StageOf(w: World, sig: Id): Stage {
    if sig in w.calls then w.calls[sig] else Ended(NotPrepared)
  }

  predicate Unused(w: World, sig: Id) {
    sig !in w.calls && sig !in w.rows && Temporary(sig) !in w.files && Final(sig) !in w.files
  }

  predicate Can(w: World, step: Step) {
    match step
    case Start(sig) => Unused(w, sig)
    case CreateTemporary(sig, _) => StageOf(w, sig).Started?
    case CloseTemporary(sig, _) => StageOf(w, sig).Opened?
    case Write(sig) => StageOf(w, sig).Ready?
    case Finish(sig, _) => StageOf(w, sig).Writing?
    case Rename(sig, _) => StageOf(w, sig).Signed?
    case Record(sig, _) => StageOf(w, sig).Published?
    case Commit(sig, took, raised) => StageOf(w, sig).Recorded? && (!took ==> raised)
    case Crash(sig) => sig in w.calls && !w.calls[sig].Ended?
  }

  function Advance(w: World, sig: Id, stage: Stage): World {
    w.(calls := w.calls[sig := stage])
  }

  function Do(w: World, step: Step): World
    requires Can(w, step)
  {
    match step
    case Start(sig) => Advance(w, sig, Started)
    case CreateTemporary(sig, ok) =>
      if ok then Advance(w.(files := w.files[Temporary(sig) := Blank]), sig, Opened)
      else Advance(w, sig, Ended(NotPrepared))
    case CloseTemporary(sig, ok) => Advance(w, sig, if ok then Ready else Ended(CloseFailed))
    case Write(sig) => Advance(w.(files := w.files[Temporary(sig) := Partial]), sig, Writing)
    case Finish(sig, validated) =>
      if validated.Some? then
        Advance(w.(files := w.files[Temporary(sig) := Validated(validated.value)]), sig, Stage.Signed(validated.value))
      else Advance(w.(files := w.files - {Temporary(sig), Final(sig)}), sig, Ended(PadesFailed))
    case Rename(sig, ok) =>
      var profile := w.calls[sig].profile;
      if ok then
        Advance(w.(files := (w.files - {Temporary(sig)})[Final(sig) := Validated(profile)]), sig, Published(profile))
      else Advance(w.(files := w.files - {Temporary(sig), Final(sig)}), sig, Ended(PadesFailed))
    case Record(sig, ok) =>
      if ok then Advance(w, sig, Recorded(Row(Final(sig), w.calls[sig].profile)))
      else Advance(w.(files := w.files - {Final(sig)}), sig, Ended(RecordFailed))
    case Commit(sig, took, raised) =>
      var rows := if took then w.rows[sig := w.calls[sig].row] else w.rows;
      Advance(w.(rows := rows), sig, Ended(if raised then CommitFailed else Success))
    case Crash(sig) => w.(calls := w.calls - {sig})
  }

  /** A committed row names a file that exists and validated under the row's profile. */
  predicate RowsPublished(w: World) {
    forall sig | sig in w.rows ::
      var row := w.rows[sig];
      row.file == Final(sig) && row.file in w.files && w.files[row.file] == Validated(row.profile)
  }

  /** The files a call owns at each stage. */
  predicate CallOk(w: World, sig: Id, stage: Stage) {
    match stage
    case Started => Temporary(sig) !in w.files && Final(sig) !in w.files && sig !in w.rows
    case Opened => Temporary(sig) in w.files && Final(sig) !in w.files && sig !in w.rows
    case Ready => Temporary(sig) in w.files && Final(sig) !in w.files && sig !in w.rows
    case Writing => Temporary(sig) in w.files && Final(sig) !in w.files && sig !in w.rows
    case Signed(profile) =>
      && Temporary(sig) in w.files && w.files[Temporary(sig)] == Validated(profile)
      && Final(sig) !in w.files && sig !in w.rows
    case Published(profile) =>
      && Temporary(sig) !in w.files && Final(sig) in w.files && w.files[Final(sig)] == Validated(profile)
      && sig !in w.rows
    case Recorded(row) =>
      && Temporary(sig) !in w.files && row == Row(Final(sig), row.profile)
      && Final(sig) in w.files && w.files[Final(sig)] == Validated(row.profile) && sig !in w.rows
    case Ended(ending) => EndOk(w, sig, ending)
  }

  /** What a call that ended leaves behind. */
  predicate EndOk(w: World, sig: Id, ending: Ending) {
    match ending
    case Success => sig in w.rows && Final(sig) in w.files && Temporary(sig) !in w.files
    case CommitFailed => Final(sig) in w.files && Temporary(sig) !in w.files
    case CloseFailed => sig !in w.rows && Final(sig) !in w.files && Temporary(sig) in w.files
    case _ => sig !in w.rows && Final(sig) !in w.files && Temporary(sig) !in w.files
  }

  predicate WorldOk(w: World) {
    RowsPublished(w) && forall sig | sig in w.calls :: CallOk(w, sig, w.calls[sig])
  }

  /** A step touches only the files and the row of its own call. */
  ghost predicate Touches(w: World, w': World, sig: Id) {
    && (forall name: Name | name.sig != sig ::
          (name in w'.files <==> name in w.files) && (name in w.files ==> w'.files[name] == w.files[name]))
    && (forall k: Id | k != sig :: (k in w'.rows <==> k in w.rows) && (k in w.rows ==> w'.rows[k] == w.rows[k]))
  }

  lemma StepTouchesItsCall(w: World, step: Step)
    requires Can(w, step)
    ensures Touches(w, Do(w, step), step.sig)
  {
  }

  lemma OtherCallsKeepOk(w: World, w': World, sig: Id, k: Id, stage: Stage)
    requires Touches(w, w', sig) && k != sig && CallOk(w, k, stage)
    ensures CallOk(w', k, stage)
  {
  }

  /** Every step, failing or not, and every crash keeps rows and files consistent. */
  lemma StepKeepsOk(w: World, step: Step)
    requires WorldOk(w) && Can(w, step)
    ensures WorldOk(Do(w, step))
  {
    var w' := Do(w, step);
    var sig := step.sig;
    StepTouchesItsCall(w, step);
    OwnCallKeepsOk(w, step);
    forall k | k in w'.calls && k != sig ensures CallOk(w', k, w'.calls[k]) {
      OtherCallsKeepOk(w, w', sig, k, w.calls[k]);
    }
  }

  lemma OwnCallKeepsOk(w: World, step: Step)
    requires WorldOk(w) && Can(w, step)
    ensures var w' := Do(w, step);
      && (step.sig in w'.calls ==> CallOk(w', step.sig, w'.calls[step.sig]))
      && RowsPublished(w')
  {
    if step.sig in w.calls {
      assert CallOk(w, step.sig, w.calls[step.sig]);
    }
    StepTouchesItsCall(w, step);
  }

  ghost predicate Run(worlds: seq<World>, steps: seq<Step>) {
    && |worlds| == |steps| + 1
    && worlds[0] == World(map[], map[], map[])
    && forall i | 0 <= i < |steps| :: Can(worlds[i], steps[i]) && worlds[i + 1] == Do(worlds[i], steps[i])
  }

  /** However calls interleave, fail or crash, every committed signature row names an existing
      file that validated under the row's profile. */
  lemma {:induction false} PublicationIsCrashConsistent(worlds: seq<World>, steps: seq<Step>, n: nat)
    requires Run(worlds, steps) && n < |worlds|
    ensures WorldOk(worlds[n])
    ensures RowsPublished(worlds[n])
  {
    if n > 0 {
      PublicationIsCrashConsistent(worlds, steps, n - 1);
      assert Can(worlds[n - 1], steps[n - 1]) && worlds[n - 1 + 1] == Do(worlds[n - 1], steps[n - 1]);
      StepKeepsOk(worlds[n - 1], steps[n - 1]);
    }
  }

  predicate BeforeCommit(ending: Ending) {
    ending != Success && ending != CommitFailed
  }

  /** An error handled before the commit leaves neither file, except when it is closing the
      new temporary file that fails: then, and only then, the temporary file stays. */
  lemma HandledErrorsLeaveNoFiles(worlds: seq<World>, steps: seq<Step>, n: nat, sig: Id)
    requires Run(worlds, steps) && n < |worlds| && sig in worlds[n].calls
    requires worlds[n].calls[sig].Ended? && BeforeCommit(worlds[n].calls[sig].ending)
    ensures sig !in worlds[n].rows && Final(sig) !in worlds[n].files
    ensures Temporary(sig) in worlds[n].files <==> worlds[n].calls[sig].ending == CloseFailed
  {
    PublicationIsCrashConsistent(worlds, steps, n);
    assert CallOk(worlds[n], sig, worlds[n].calls[sig]);
  }

  /** A call that answers success has its row, the file the row names, validated under the row's
      profile, and no temporary file; one whose commit raised keeps its file, row or no row. */
  lemma EndingsKeepTheirPromise(worlds: seq<World>, steps: seq<Step>, n: nat, sig: Id)
    requires Run(worlds, steps) && n < |worlds| && sig in worlds[n].calls
    ensures var w := worlds[n];
      && (w.calls[sig] == Ended(Success) ==>
            && sig in w.rows && w.rows[sig].file == Final(sig) && Final(sig) in w.files
            && w.files[Final(sig)] == Validated(w.rows[sig].profile) && Temporary(sig) !in w.files)
      && (w.calls[sig] == Ended(CommitFailed) ==>
            && Final(sig) in w.files && Temporary(sig) !in w.files
            && (sig in w.rows ==> w.files[Final(sig)] == Validated(w.rows[sig].profile)))
  {
    PublicationIsCrashConsistent(worlds, steps, n);
    assert CallOk(worlds[n], sig, worlds[n].calls[sig]);
  }

  /** A file left by a failed close is reachable. */
  lemma CloseFailureLeavesAFile(sig: Id) returns (worlds: seq<World>, steps: seq<Step>)
    ensures Run(worlds, steps)
    ensures var w := worlds[|steps|];
      sig in w.calls && w.calls[sig] == Ended(CloseFailed) && Temporary(sig) in w.files
  {
    steps := [Start(sig), CreateTemporary(sig, true), CloseTemporary(sig, false)];
    var files: Files := map[Temporary(sig) := Blank];
    worlds := [
      World(map[], map[], map[]),
      World(map[], map[], map[sig := Started]),
      World(files, map[], map[sig := Opened]),
      World(files, map[], map[sig := Ended(CloseFailed)])];
  }

  // ---------------------------------------------------------------- the handler

  /** What goes wrong during one call; `None` is a failed signature or validation. */
  datatype Faults = Faults(
    created: bool, closed: bool, validated: Option<Profile>, renamed: bool, recorded: bool, took: bool, raised: bool)

  /** The steps one call takes, given what goes wrong. */
  function StepsOf(sig: Id, f: Faults): seq<Step> {
    var opening := [Start(sig), CreateTemporary(sig, f.created)];
    var closing := opening + [CloseTemporary(sig, f.closed)];
    var signing := closing + [Write(sig), Finish(sig, f.validated)];
    var renaming := signing + [Rename(sig, f.renamed)];
    var recording := renaming + [Record(sig, f.recorded)];
    if !f.created then opening
    else if !f.closed then closing
    else if f.validated.None? then signing
    else if !f.renamed then renaming
    else if !f.recorded then recording
    else recording + [Commit(sig, f.took, f.raised)]
  }

  /** The world after the steps, when each can happen in turn. */
  predicate Reaches(w: World, steps: seq<Step>, w': World)
    decreases |steps|
  {
    if steps == [] then w' == w else Can(w, steps[0]) && Reaches(Do(w, steps[0]), steps[1..], w')
  }

  function EndingOf(f: Faults): Ending {
    if !f.created then NotPrepared
    else if !f.closed then CloseFailed
    else if f.validated.None? || !f.renamed then PadesFailed
    else if !f.recorded then RecordFailed
    else if f.raised then CommitFailed
    else Success
  }

  function FilesAfter(files: Files, sig: Id, f: Faults): Files {
    var ending := EndingOf(f);
    if f.validated.Some? && (ending == Success || ending == CommitFailed)
      then files[Final(sig) := Validated(f.validated.value)]
    else if ending == CloseFailed then files[Temporary(sig) := Blank]
    else files
  }

  function RowsAfter(rows: map<Id, Row>, sig: Id, f: Faults): map<Id, Row> {
    if f.validated.Some? && f.took && (EndingOf(f) == Success || EndingOf(f) == CommitFailed)
    then rows[sig := Row(Final(sig), f.validated.value)]
    else rows
  }

  /** How a call ends, by the first thing that goes wrong, and what it leaves. */
  lemma FirstFaultDecides(files: Files, rows: map<Id, Row>, sig: Id, f: Faults)
    requires !f.took ==> f.raised
    ensures !f.created ==> EndingOf(f) == NotPrepared && FilesAfter(files, sig, f) == files
    ensures f.created && !f.closed ==>
      EndingOf(f) == CloseFailed && FilesAfter(files, sig, f) == files[Temporary(sig) := Blank]
    ensures f.created && f.closed && (f.validated.None? || !f.renamed) ==>
      EndingOf(f) == PadesFailed && FilesAfter(files, sig, f) == files
    ensures f.created && f.closed && f.validated.Some? && f.renamed && !f.recorded ==>
      EndingOf(f) == RecordFailed && FilesAfter(files, sig, f) == files
    ensures f.created && f.closed && f.validated.Some? && f.renamed && f.recorded ==>
      && EndingOf(f) == (if f.raised then CommitFailed else Success)
      && FilesAfter(files, sig, f) == files[Final(sig) := Validated(f.validated.value)]
      && RowsAfter(rows, sig, f) == (if f.took then rows[sig := Row(Final(sig), f.validated.value)] else rows)
    ensures !f.created || !f.closed || f.validated.None? || !f.renamed || !f.recorded ==>
      RowsAfter(rows, sig, f) == rows
  {
  }

  /** The handler, run alone, is its steps one after another: what it leaves is what they leave. */
  lemma HandlerIsItsSteps(w: World, sig: Id, f: Faults)
    requires Unused(w, sig) && (!f.took ==> f.raised)
    ensures Reaches(w, StepsOf(sig, f),
      World(FilesAfter(w.files, sig, f), RowsAfter(w.rows, sig, f), w.calls[sig := Ended(EndingOf(f))]))
  {
    var steps := StepsOf(sig, f);
    var w1 := Do(w, steps[0]);
    var w2 := Do(w1, steps[1]);
    assert steps[1..][0] == steps[1] && steps[1..][1..] == steps[2..];
    if !f.created {
      assert w2.calls == w.calls[sig := Ended(NotPrepared)];
      assert steps[2..] == [];
    } else {
      AfterOpening(w, w2, sig, f, steps[2..]);
    }
  }

  lemma AfterOpening(w: World, w2: World, sig: Id, f: Faults, steps: seq<Step>)
    requires Unused(w, sig) && (!f.took ==> f.raised) && f.created && steps == StepsOf(sig, f)[2..]
    requires w2 == World(w.files[Temporary(sig) := Blank], w.rows, w.calls[sig := Opened])
    ensures Reaches(w2, steps,
      World(FilesAfter(w.files, sig, f), RowsAfter(w.rows, sig, f), w.calls[sig := Ended(EndingOf(f))]))
  {
    var w3 := Do(w2, steps[0]);
    if !f.closed {
      assert steps[1..] == [];
      assert w3.calls == w.calls[sig := Ended(CloseFailed)];
    } else {
      assert w3.calls == w.calls[sig := Ready];
      AfterClosing(w, w3, sig, f, steps[1..]);
    }
  }

  lemma AfterClosing(w: World, w3: World, sig: Id, f: Faults, steps: seq<Step>)
    requires Unused(w, sig) && (!f.took ==> f.raised) && f.created && f.closed && steps == StepsOf(sig, f)[3..]
    requires w3 == World(w.files[Temporary(sig) := Blank], w.rows, w.calls[sig := Ready])
    ensures Reaches(w3, steps,
      World(FilesAfter(w.files, sig, f), RowsAfter(w.rows, sig, f), w.calls[sig := Ended(EndingOf(f))]))
  {
    var w4 := Do(w3, steps[0]);
    var w5 := Do(w4, steps[1]);
    assert steps[1..][0] == steps[1] && steps[1..][1..] == steps[2..];
    if f.validated.None? {
      assert steps[2..] == [];
      assert w5 == World(w.files, w.rows, w.calls[sig := Ended(PadesFailed)]);
    } else {
      assert w5.files == w.files[Temporary(sig) := Validated(f.validated.value)];
      assert w5.calls == w.calls[sig := Stage.Signed(f.validated.value)];
      AfterSigning(w, w5, sig, f, steps[2..]);
    }
  }

  lemma AfterSigning(w: World, w5: World, sig: Id, f: Faults, steps: seq<Step>)
    requires Unused(w, sig) && (!f.took ==> f.raised) && f.created && f.closed && f.validated.Some?
    requires steps == StepsOf(sig, f)[5..]
    requires w5 == World(w.files[Temporary(sig) := Validated(f.validated.value)], w.rows,
                         w.calls[sig := Stage.Signed(f.validated.value)])
    ensures Reaches(w5, steps,
      World(FilesAfter(w.files, sig, f), RowsAfter(w.rows, sig, f), w.calls[sig := Ended(EndingOf(f))]))
  {
    var profile := f.validated.value;
    var w6 := Do(w5, steps[0]);
    if !f.renamed {
      assert steps[1..] == [];
      assert w6 == World(w.files, w.rows, w.calls[sig := Ended(PadesFailed)]);
    } else {
      assert w6 == World(w.files[Final(sig) := Validated(profile)], w.rows, w.calls[sig := Published(profile)]);
      var w7 := Do(w6, steps[1]);
      assert steps[1..][0] == steps[1] && steps[1..][1..] == steps[2..];
      if !f.recorded {
        assert steps[2..] == [];
        assert w7 == World(w.files, w.rows, w.calls[sig := Ended(RecordFailed)]);
      } else {
        var w8 := Do(w7, steps[2]);
        assert steps[2..][0] == steps[2] && steps[2..][1..] == [];
        assert w8.calls == w.calls[sig := Ended(EndingOf(f))];
        assert Reaches(w7, steps[2..], w8);
      }
    }
  }

  class Storage {
    var files: Files
    var rows: map<Id, Row>

    constructor ()
      ensures files == map[] && rows == map[]
    {
      files, rows := map[], map[];
    }

    predicate Fresh(sig: Id)
      reads this
    {
      sig !in rows && Temporary(sig) !in files && Final(sig) !in files
    }

    method Unlink(name: Name)
      modifies this`files
      ensures files == old(files) - {name}
    {
      files := files - {name};
    }

    /** Sign into the temporary file and validate it; on any failure the file is removed. */
    method SignPdf(output: Name, validated: Option<Profile>)
      modifies this`files
      ensures files ==
        if validated.Some? then old(files)[output := Validated(validated.value)] else old(files) - {output}
    {
      files := files[output := Partial];
      if validated.None? {
        Unlink(output);
        return;
      }
      files := files[output := Validated(validated.value)];
    }

    /** The publishing half of the handler. */
    method Publish(sig: Id, f: Faults) returns (ending: Ending)
      requires Fresh(sig) && (!f.took ==> f.raised)
      modifies this
      ensures ending == EndingOf(f)
      ensures files == FilesAfter(old(files), sig, f) && rows == RowsAfter(old(rows), sig, f)
    {
      if !f.created {
        return NotPrepared;
      }
      files := files[Temporary(sig) := Blank];
      if !f.closed {
        return CloseFailed;
      }
      SignPdf(Temporary(sig), f.validated);
      if f.validated.None? || !f.renamed {
        Unlink(Temporary(sig));
        Unlink(Final(sig));
        assert files == old(files);
        return PadesFailed;
      }
      files := (files - {Temporary(sig)})[Final(sig) := files[Temporary(sig)]];
      assert files == old(files)[Final(sig) := Validated(f.validated.value)];
      var row := Row(Final(sig), f.validated.value);
      if !f.recorded {
        Unlink(Final(sig));
        assert files == old(files);
        return RecordFailed;
      }
      if f.took {
        rows := rows[sig := row];
      }
      return if f.raised then CommitFailed else Success;
    }
  }
}
