/**
 * A file's life when its operations interleave: each reads the row, checks it, and writes later, so a write can
 * land after another operation has changed the row.
 */
module FileStatus {
  import opened FileCleanup

  /** Operations past their checks that have not written yet. */
  datatype Table = Table(files: map<FileId, File>, confirming: multiset<FileId>, deleting: multiset<FileId>)

  datatype Step =
    | Prepare(id: FileId, owner: Owner)
    | CheckConfirm(id: FileId, owner: Owner)
    | WriteConfirm(id: FileId)
    | CheckDelete(id: FileId, owner: Owner)
    | RemoveBlob(id: FileId)
    | WriteDelete(id: FileId)
    | ConfirmStops(id: FileId)
    | DeleteStops(id: FileId)

  /** What a step does to the rows. */
  function FilesAfter(t: Table, step: Step): map<FileId, File> {
    match step
    case Prepare(id, owner) =>
      if id in t.files then t.files else t.files[id := File(owner, Pending, false, true)]
    case WriteConfirm(id) =>
      // The UPDATE names the file by id alone.
      if id in t.confirming && id in t.files then t.files[id := t.files[id].(status := Uploaded)] else t.files
    case RemoveBlob(id) =>
      if id in t.deleting && id in t.files then t.files[id := t.files[id].(blob := false)] else t.files
    case WriteDelete(id) =>
      if MayWriteDelete(t, id) then t.files[id := t.files[id].(status := Removed, deleted := true)] else t.files
    case _ => t.files
  }

  predicate MayWriteDelete(t: Table, id: FileId) {
    id in t.deleting && id in t.files && !t.files[id].blob
  }

  /** A step that is not possible in a state changes nothing. */
  function Apply(t: Table, step: Step): Table {
    var files := FilesAfter(t, step);
    match step
    case CheckConfirm(id, owner) =>
      if Access(t.files, id, owner).Ok? && t.files[id].status.Pending? then t.(confirming := t.confirming + multiset{id}) else t
    case CheckDelete(id, owner) =>
      if Access(t.files, id, owner).Ok? then t.(deleting := t.deleting + multiset{id}) else t
    case WriteConfirm(id) => Table(files, t.confirming - multiset{id}, t.deleting)
    case WriteDelete(id) => if MayWriteDelete(t, id) then Table(files, t.confirming, t.deleting - multiset{id}) else t
    case ConfirmStops(id) => Table(files, t.confirming - multiset{id}, t.deleting)
    case DeleteStops(id) => Table(files, t.confirming, t.deleting - multiset{id})
    case _ => Table(files, t.confirming, t.deleting)
  }

  const START := Table(map[], multiset{}, multiset{})

  function Run(steps: seq<Step>): Table {
    if steps == [] then START else Apply(Run(steps[..|steps| - 1]), steps[|steps| - 1])
  }

  /** Whether a download gives out the file. */
  predicate IsServed(t: Table, id: FileId, owner: Owner) {
    Access(t.files, id, owner).Ok? && t.files[id].status.Uploaded?
  }

  /** How a row may change: its owner and its deletion stay, and lost bytes stay lost. */
  predicate RowAdvances(f: File, g: File) {
    g.owner == f.owner && (f.deleted ==> g.deleted) && (!f.blob ==> !g.blob)
  }

  lemma RowAdvancesInStep(t: Table, step: Step, id: FileId)
    requires id in t.files
    ensures id in Apply(t, step).files && RowAdvances(t.files[id], Apply(t, step).files[id])
  {
    hide Access, Apply;
    FilesAre(t, step);
  }

  lemma FilesAre(t: Table, step: Step)
    ensures Apply(t, step).files == FilesAfter(t, step)
  {
  }

  lemma {:induction false} RowsAdvance(steps: seq<Step>, more: seq<Step>, id: FileId)
    requires id in Run(steps).files
    ensures id in Run(steps + more).files && RowAdvances(Run(steps).files[id], Run(steps + more).files[id])
  {
    hide Apply;
    if more == [] {
      assert steps + more == steps;
    } else {
      var last := |more| - 1;
      RowsAdvance(steps, more[..last], id);
      assert (steps + more)[..|steps| + last] == steps + more[..last];
      RowAdvancesInStep(Run(steps + more[..last]), more[last], id);
    }
  }

  predicate DeletedHaveNoBytes(files: map<FileId, File>) {
    forall id :: id in files && files[id].deleted ==> !files[id].blob
  }

  /** Over every run, a row is marked deleted only after its bytes have gone. */
  lemma {:induction false} DeletedFilesHaveNoBytes(steps: seq<Step>)
    ensures DeletedHaveNoBytes(Run(steps).files)
  {
    hide Access, Apply;
    if steps != [] {
      DeletedFilesHaveNoBytes(steps[..|steps| - 1]);
      FilesAre(Run(steps[..|steps| - 1]), steps[|steps| - 1]);
    }
  }

  /** A file is given out exactly to the owner of a live, uploaded row. */
  lemma ServedIff(t: Table, id: FileId, owner: Owner)
    ensures IsServed(t, id, owner) <==>
      id in t.files && t.files[id].owner == owner && t.files[id].status == Uploaded && !t.files[id].deleted
  {
  }

  /** An operation that passes its checks is under way once more. */
  lemma CheckedIsUnderWay(t: Table, id: FileId, owner: Owner)
    ensures Apply(t, CheckConfirm(id, owner)).confirming == t.confirming +
      if id in t.files && !t.files[id].deleted && t.files[id].owner == owner && t.files[id].status == Pending
      then multiset{id} else multiset{}
    ensures Apply(t, CheckDelete(id, owner)).deleting == t.deleting +
      if id in t.files && !t.files[id].deleted && t.files[id].owner == owner then multiset{id} else multiset{}
  {
    assert t.confirming + multiset{} == t.confirming && t.deleting + multiset{} == t.deleting;
  }

  /** One that has written is no longer under way. */
  lemma WrittenIsNoLongerUnderWay(t: Table, id: FileId)
    ensures Apply(t, WriteConfirm(id)).confirming == t.confirming - multiset{id}
    ensures id in t.deleting && id in t.files && !t.files[id].blob ==>
      Apply(t, WriteDelete(id)).deleting == t.deleting - multiset{id}
  {
    hide FilesAfter;
  }

  /** Nor is one that stops, which leaves the rows alone. */
  lemma StoppedIsNoLongerUnderWay(t: Table, id: FileId)
    ensures Apply(t, ConfirmStops(id)) == t.(confirming := t.confirming - multiset{id})
    ensures Apply(t, DeleteStops(id)) == t.(deleting := t.deleting - multiset{id})
  {
  }

  /** A deleted file is never served again, whatever operations were under way when it was deleted. */
  lemma DeletedFileIsNeverServed(steps: seq<Step>, more: seq<Step>, id: FileId, owner: Owner)
    requires id in Run(steps).files && Run(steps).files[id].deleted
    ensures !IsServed(Run(steps + more), id, owner)
  {
    RowsAdvance(steps, more, id);
  }

  /** Pending, then uploaded, then removed. */
  function Rank(s: Status): nat {
    match s
    case Pending => 0
    case Uploaded => 1
    case Removed => 2
  }

  /** A status moves back in exactly one way: a confirmation checked before a deletion and written after it. */
  lemma StatusMovesBackIff(t: Table, step: Step, id: FileId)
    requires id in t.files
    ensures Rank(Apply(t, step).files[id].status) < Rank(t.files[id].status)
       <==> step == WriteConfirm(id) && id in t.confirming && t.files[id].status.Removed?
    ensures t.files[id].status != Pending ==> Apply(t, step).files[id].status != Pending
    ensures t.files[id].status == Removed && Apply(t, step).files[id].status != Removed ==>
      step == WriteConfirm(id) && id in t.confirming && Apply(t, step).files[id].status == Uploaded
  {
  }

  /** Bytes are missing, and deletions are written, only for files that some deletion got hold of. */
  ghost predicate LossesWereAdmitted(t: Table, admitted: set<FileId>) {
    && (forall id :: id in t.files && (!t.files[id].blob || t.files[id].deleted) ==> id in admitted)
    && (forall id :: id in t.deleting ==> id in admitted)
  }

  /** The files for which a deletion passed its checks. */
  function Admitted(steps: seq<Step>): set<FileId> {
    if steps == [] then {}
    else Admitted(steps[..|steps| - 1]) + AdmittedBy(Run(steps[..|steps| - 1]), steps[|steps| - 1])
  }

  function AdmittedBy(t: Table, step: Step): set<FileId> {
    if step.CheckDelete? && Access(t.files, step.id, step.owner).Ok? then {step.id} else {}
  }

  lemma StepLosesOnlyAdmitted(t: Table, step: Step, admitted: set<FileId>)
    requires LossesWereAdmitted(t, admitted)
    ensures LossesWereAdmitted(Apply(t, step), admitted + AdmittedBy(t, step))
  {
    hide Access;
  }

  /** A file for which no deletion by its owner was admitted keeps its bytes and stays undeleted. */
  lemma {:induction false} UnaskedFilesKeepTheirBytes(steps: seq<Step>)
    ensures LossesWereAdmitted(Run(steps), Admitted(steps))
  {
    hide Apply, LossesWereAdmitted, AdmittedBy;
    if steps == [] {
      assert LossesWereAdmitted(START, {}) by { NothingLost(); }
    } else {
      UnaskedFilesKeepTheirBytes(steps[..|steps| - 1]);
      StepLosesOnlyAdmitted(Run(steps[..|steps| - 1]), steps[|steps| - 1], Admitted(steps[..|steps| - 1]));
    }
  }

  lemma NothingLost()
    ensures LossesWereAdmitted(START, {})
  {
  }

  /**
   * A confirmation that overtakes a deletion leaves a row that says uploaded and is deleted, and that
   * nobody is served.
   */
  lemma LateConfirmationIsHidden(t: Table, id: FileId, owner: Owner)
    requires id in t.files && t.files[id].deleted && id in t.confirming
    ensures var after := Apply(t, WriteConfirm(id));
      after.files[id].status.Uploaded? && after.files[id].deleted && !IsServed(after, id, owner)
  {
  }

  lemma RunSnoc(steps: seq<Step>, step: Step)
    ensures Run(steps + [step]) == Apply(Run(steps), step)
  {
    assert (steps + [step])[..|steps|] == steps;
  }

  lemma FromPreparedToChecked(id: FileId, owner: Owner)
    ensures var t := Apply(Apply(START, Prepare(id, owner)), CheckConfirm(id, owner));
      t == Table(map[id := File(owner, Pending, false, true)], multiset{id}, multiset{})
  {
  }

  lemma FromCheckedToRemoved(id: FileId, owner: Owner)
    ensures var t := Table(map[id := File(owner, Pending, false, true)], multiset{id}, multiset{});
      Apply(Apply(Apply(t, CheckDelete(id, owner)), RemoveBlob(id)), WriteDelete(id))
      == Table(map[id := File(owner, Removed, true, false)], multiset{id}, multiset{})
  {
    var t := Table(map[id := File(owner, Pending, false, true)], multiset{id}, multiset{});
    assert Apply(t, CheckDelete(id, owner)) == t.(deleting := multiset{id});
  }

  lemma RemovedToUploaded(id: FileId, owner: Owner)
    ensures var t := Table(map[id := File(owner, Removed, true, false)], multiset{id}, multiset{});
      Apply(t, WriteConfirm(id)).files == map[id := File(owner, Uploaded, true, false)]
  {
  }

  /**
   * A run that gets there: a confirmation is checked, the file is deleted, and the confirmation is written. The status
   * moves from removed back to uploaded; the row stays deleted, its bytes are gone and nobody is served.
   */
  lemma LateConfirmationRun(id: FileId, owner: Owner, reader: Owner)
    ensures var steps := [Prepare(id, owner)] + [CheckConfirm(id, owner)] + [CheckDelete(id, owner)] + [RemoveBlob(id)]
        + [WriteDelete(id)];
      var after := Run(steps + [WriteConfirm(id)]);
      && id in Run(steps).files && Run(steps).files[id] == File(owner, Removed, true, false)
      && id in after.files && after.files[id] == File(owner, Uploaded, true, false)
      && !IsServed(after, id, reader)
  {
    var one := [Prepare(id, owner)];
    var two := one + [CheckConfirm(id, owner)];
    var three := two + [CheckDelete(id, owner)];
    var four := three + [RemoveBlob(id)];
    var five := four + [WriteDelete(id)];
    assert [] + one == one;
    RunSnoc([], Prepare(id, owner));
    RunSnoc(one, CheckConfirm(id, owner));
    RunSnoc(two, CheckDelete(id, owner));
    RunSnoc(three, RemoveBlob(id));
    RunSnoc(four, WriteDelete(id));
    RunSnoc(five, WriteConfirm(id));
    assert Run([]) == START;
    hide Run, Apply, IsServed;
    FromPreparedToChecked(id, owner);
    FromCheckedToRemoved(id, owner);
    LateConfirmationIsHidden(Run(five), id, reader);
    RemovedToUploaded(id, owner);
  }
}
