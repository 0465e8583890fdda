/**
 * Files and their deletion: a file's row and its blob are separate, either step of a deletion can fail, and the
 * events that ask for deletions are delivered again until one attempt goes through. The consumer tells its own
 * "not found" and "forbidden" by their status codes alone, so it takes a blob store's for them.
 */
module FileCleanup {
  import opened Collections
  import opened Options

  type FileId = nat
  type Owner = nat

  datatype Status = Pending | Uploaded | Removed

  /** `deleted` stands for a set `deleted_at`; `blob` for the bytes being there. */
  datatype File = File(owner: Owner, status: Status, deleted: bool, blob: bool)

  datatype Result = Ok | NotFound | Forbidden | Conflict

  function Gone(f: File): File {
    f.(status := Removed, deleted := true, blob := false)
  }

  predicate IsLive(files: map<FileId, File>, id: FileId) {
    id in files && !files[id].deleted
  }

  /** The checks every operation on a file starts with. */
  function Access(files: map<FileId, File>, id: FileId, owner: Owner): Result {
    if !IsLive(files, id) then NotFound else if files[id].owner != owner then Forbidden else Ok
  }

  /** What an event asks for: this file, if it is this owner's. */
  datatype Request = Request(owner: Owner, file: FileId)

  predicate IsAsked(requests: set<Request>, files: map<FileId, File>, id: FileId) {
    IsLive(files, id) && Request(files[id].owner, id) in requests
  }

  /** The table when every request has been carried out. */
  function Cleaned(files: map<FileId, File>, requests: set<Request>): map<FileId, File> {
    map id | id in files :: if IsAsked(requests, files, id) then Gone(files[id]) else files[id]
  }

  /** The table after some of it has been: a file asked for may have lost its blob only, or be gone. */
  ghost predicate Progress(before: map<FileId, File>, after: map<FileId, File>, requests: set<Request>) {
    && before.Keys == after.Keys
    && forall id :: id in before ==>
         || after[id] == before[id]
         || (IsAsked(requests, before, id) && after[id] == before[id].(blob := false))
         || (IsAsked(requests, before, id) && after[id] == Gone(before[id]))
  }

  function RequestsOf(owner: Owner, ids: seq<FileId>): set<Request> {
    set id | id in ids :: Request(owner, id)
  }

  // One deletion, and one delivery of an event.

  /** What can go wrong in a deletion; a write can fail before or after it happened, and only the store names a status. */
  datatype Fault = NoFault | ReadFails | BlobFails(status: Option<nat>, removed: bool) | WriteFails(written: bool)

  datatype Answer = Deleted | Threw(status: Option<nat>)

  function AnswerTo(files: map<FileId, File>, id: FileId, owner: Owner, fault: Fault): Answer {
    if fault.ReadFails? then Threw(None)
    else if Access(files, id, owner).NotFound? then Threw(Some(404))
    else if Access(files, id, owner).Forbidden? then Threw(Some(403))
    else if fault.NoFault? then Deleted
    else if fault.BlobFails? then Threw(fault.status)
    else Threw(None)
  }

  /** The table after a deletion was tried: blob first, then the row. */
  function Tried(files: map<FileId, File>, id: FileId, owner: Owner, fault: Fault): map<FileId, File> {
    if !Access(files, id, owner).Ok? || fault.ReadFails? then files
    else
      match fault
      case NoFault => files[id := Gone(files[id])]
      case BlobFails(_, removed) => if removed then files[id := files[id].(blob := false)] else files
      case WriteFails(written) => files[id := if written then Gone(files[id]) else files[id].(blob := false)]
  }

  predicate IsSkipped(status: Option<nat>) {
    status == Some(404) || status == Some(403)
  }

  /** A blob store's refusal that reads like a file that is missing or someone else's. */
  predicate IsMistaken(files: map<FileId, File>, id: FileId, owner: Owner, fault: Fault) {
    Access(files, id, owner).Ok? && fault.BlobFails? && IsSkipped(fault.status)
  }

  /** `ok` when every id was deleted or skipped; `kept` are the files whose last try was a mistaken skip. */
  datatype Passed = Passed(files: map<FileId, File>, ok: bool, kept: set<FileId>)

  function KeptAfter(before: Passed, id: FileId, owner: Owner, fault: Fault): set<FileId> {
    if IsMistaken(before.files, id, owner, fault) then before.kept + {id}
    else if AnswerTo(before.files, id, owner, fault).Deleted? then before.kept - {id}
    else before.kept
  }

  /** One delivery: the ids in order, up to the first failure that is not skipped. */
  function Pass(files: map<FileId, File>, owner: Owner, ids: seq<FileId>, faults: seq<Fault>): Passed
    requires |faults| == |ids|
  {
    if ids == [] then Passed(files, true, {})
    else
      var last := |ids| - 1;
      var before := Pass(files, owner, ids[..last], faults[..last]);
      if !before.ok then before
      else
        var answer := AnswerTo(before.files, ids[last], owner, faults[last]);
        Passed(Tried(before.files, ids[last], owner, faults[last]), answer.Deleted? || IsSkipped(answer.status),
               KeptAfter(before, ids[last], owner, faults[last]))
  }

  /** Those that did go wrong. */
  function Real(faults: seq<Fault>): seq<Fault> {
    if faults == [] then []
    else Real(faults[..|faults| - 1]) + if faults[|faults| - 1].NoFault? then [] else [faults[|faults| - 1]]
  }

  class FileService {
    var files: map<FileId, File>
    /** Everything that went wrong with the database and the blob store. */
    ghost var troubles: seq<Fault>

    constructor (files: map<FileId, File>)
      ensures this.files == files && troubles == []
    {
      this.files, this.troubles := files, [];
    }

    method ConfirmFile(id: FileId, owner: Owner) returns (r: Result)
      modifies this`files
      ensures r == var access := Access(old(files), id, owner);
        if access.Ok? && !old(files)[id].status.Pending? then Conflict else access
      ensures files == if r.Ok? then old(files)[id := old(files)[id].(status := Uploaded)] else old(files)
    {
      if id !in files || files[id].deleted { return NotFound; }
      if files[id].owner != owner { return Forbidden; }
      if files[id].status != Pending { return Conflict; }
      files := files[id := files[id].(status := Uploaded)];
      r := Ok;
    }

    /** Only an uploaded file's own owner gets it. */
    method GetFileForDownload(id: FileId, owner: Owner) returns (r: Result)
      ensures r.Ok? <==> IsLive(files, id) && files[id].owner == owner && files[id].status.Uploaded?
      ensures r.Forbidden? <==> IsLive(files, id) && files[id].owner != owner
      ensures r.NotFound? <==> !IsLive(files, id)
    {
      if id !in files || files[id].deleted { return NotFound; }
      if files[id].owner != owner { return Forbidden; }
      if files[id].status != Uploaded { return Conflict; }
      r := Ok;
    }

    /** The blob store removes the blob, or refuses with any status, or loses its answer. */
    method DeleteBlob(id: FileId) returns (fault: Fault)
      requires id in files
      modifies this
      ensures fault.NoFault? || fault.BlobFails?
      ensures troubles == old(troubles) + Real([fault])
      ensures files == if fault.NoFault? || fault.removed then old(files)[id := old(files)[id].(blob := false)] else old(files)
    {
      var removed, answered: bool := *, *;
      var status: Option<nat> := *;
      if removed { files := files[id := files[id].(blob := false)]; }
      fault := if removed && answered then NoFault else BlobFails(status, removed);
      Note(fault);
    }

    method MarkDeleted(id: FileId) returns (fault: Fault)
      requires id in files
      modifies this
      ensures fault.NoFault? || fault.WriteFails?
      ensures troubles == old(troubles) + Real([fault])
      ensures files == if fault.NoFault? || fault.written then old(files)[id := old(files)[id].(status := Removed, deleted := true)]
                       else old(files)
    {
      var written, answered: bool := *, *;
      if written { files := files[id := files[id].(status := Removed, deleted := true)]; }
      fault := if written && answered then NoFault else WriteFails(written);
      Note(fault);
    }

    /** Reads the row, or fails to. */
    method ReadRow() returns (fault: Fault)
      modifies this`troubles
      ensures fault.NoFault? || fault.ReadFails?
      ensures troubles == old(troubles) + Real([fault])
    {
      var read: bool := *;
      fault := if read then NoFault else ReadFails;
      Note(fault);
    }

    ghost method Note(fault: Fault)
      modifies this`troubles
      ensures troubles == old(troubles) + Real([fault])
    {
      assert [fault][..0] == [];
      troubles := troubles + Real([fault]);
    }

    /** Checks, then the blob, then the row; `fault` is what went wrong on the way. */
    method SoftDeleteFile(id: FileId, owner: Owner) returns (answer: Answer, fault: Fault)
      modifies this
      ensures answer == AnswerTo(old(files), id, owner, fault)
      ensures files == Tried(old(files), id, owner, fault)
      ensures troubles == old(troubles) + Real([fault])
    {
      fault := ReadRow();
      if fault.ReadFails? { return Threw(None), fault; }
      assert Real([NoFault]) == [] by { assert [NoFault][..0] == []; }
      if id !in files || files[id].deleted { return Threw(Some(404)), NoFault; }
      if files[id].owner != owner { return Threw(Some(403)), NoFault; }
      fault := DeleteBlob(id);
      if fault.BlobFails? { return Threw(fault.status), fault; }
      fault := MarkDeleted(id);
      if fault.WriteFails? { return Threw(None), fault; }
      answer := Deleted;
    }

    /** One delivery of an event. It skips what reads as missing or foreign and stops at any other failure. */
    method ProcessConversationDeleted(owner: Owner, ids: seq<FileId>) returns (ok: bool, faults: seq<Fault>)
      modifies this
      ensures |faults| == |ids| && troubles == old(troubles) + Real(faults)
      ensures var passed := Pass(old(files), owner, ids, faults); ok == passed.ok && files == passed.files
    {
      ghost var before := files;
      faults := [];
      var i := 0;
      while i < |ids|
        invariant 0 <= i <= |ids| && |faults| == i && troubles == old(troubles) + Real(faults)
        invariant Pass(before, owner, ids[..i], faults).ok && Pass(before, owner, ids[..i], faults).files == files
      {
        ghost var done := faults;
        var answer, fault := SoftDeleteFile(ids[i], owner);
        faults := faults + [fault];
        assert ids[..i + 1][..i] == ids[..i] && faults[..i] == done && [fault][..0] == [];
        i := i + 1;
        if answer.Threw? && !IsSkipped(answer.status) {
          StoppedPass(before, owner, ids, faults, i);
          NothingAfter(faults, |ids| - i);
          faults := faults + seq(|ids| - i, _ => NoFault);
          return false, faults;
        }
      }
      assert ids[..i] == ids;
      ok := true;
    }
  }

  lemma {:induction false} NothingAfter(faults: seq<Fault>, n: nat)
    ensures Real(faults + seq(n, _ => NoFault)) == Real(faults)
  {
    var all := faults + seq(n, _ => NoFault);
    if n == 0 {
      assert all == faults;
    } else {
      assert all[..|all| - 1] == faults + seq(n - 1, _ => NoFault);
      NothingAfter(faults, n - 1);
    }
  }

  /** A pass that has stopped stays as it is. */
  lemma {:induction false} StoppedPass(files: map<FileId, File>, owner: Owner, ids: seq<FileId>, faults: seq<Fault>, i: nat)
    requires |faults| == i <= |ids| && !Pass(files, owner, ids[..i], faults).ok
    ensures Pass(files, owner, ids, faults + seq(|ids| - i, _ => NoFault)) == Pass(files, owner, ids[..i], faults)
    decreases |ids| - i
  {
    if i < |ids| {
      var more := faults + [NoFault];
      assert ids[..i + 1][..i] == ids[..i] && more[..i] == faults;
      StoppedPass(files, owner, ids, more, i + 1);
      assert more + seq(|ids| - (i + 1), _ => NoFault) == faults + seq(|ids| - i, _ => NoFault);
    } else {
      assert ids[..i] == ids && faults + seq(0, _ => NoFault) == faults;
    }
  }

  lemma {:induction false} PassProgresses(files: map<FileId, File>, owner: Owner, ids: seq<FileId>, faults: seq<Fault>)
    requires |faults| == |ids|
    ensures Progress(files, Pass(files, owner, ids, faults).files, RequestsOf(owner, ids))
  {
    if ids != [] {
      var last := |ids| - 1;
      PassProgresses(files, owner, ids[..last], faults[..last]);
      assert ids == ids[..last] + [ids[last]];
      RequestsGrow(owner, ids[..last], ids[last]);
      hide Pass;
      var before := Pass(files, owner, ids[..last], faults[..last]).files;
      OneTryProgresses(before, ids[last], owner, faults[last]);
      ProgressAddsUp(files, before, Tried(before, ids[last], owner, faults[last]),
                     RequestsOf(owner, ids[..last]), {Request(owner, ids[last])});
      NoProgress(files);
    }
  }

  lemma RequestsGrow(owner: Owner, ids: seq<FileId>, id: FileId)
    ensures RequestsOf(owner, ids + [id]) == RequestsOf(owner, ids) + {Request(owner, id)}
  {
    assert forall x :: x in ids + [id] <==> x in ids || x == id;
  }

  lemma OneTryProgresses(files: map<FileId, File>, id: FileId, owner: Owner, fault: Fault)
    ensures Progress(files, Tried(files, id, owner, fault), {Request(owner, id)})
  {
  }

  // What an acked delivery has done.

  /** Of the files asked for, exactly the kept ones are still there after a pass that went through. */
  lemma {:induction false} KeptAreLeft(files: map<FileId, File>, owner: Owner, ids: seq<FileId>, faults: seq<Fault>, id: FileId)
    requires |faults| == |ids| && Pass(files, owner, ids, faults).ok
    ensures var passed := Pass(files, owner, ids, faults);
      id in passed.kept <==> IsAsked(RequestsOf(owner, ids), passed.files, id)
  {
    if ids != [] {
      var last := |ids| - 1;
      KeptAreLeft(files, owner, ids[..last], faults[..last], id);
      assert ids == ids[..last] + [ids[last]];
      RequestsGrow(owner, ids[..last], ids[last]);
    }
  }

  /**
   * A delivery that is acked has left the table clean if and only if no file's last try in it was a blob deletion
   * refused with status 404 or 403.
   */
  lemma AckedPassIsCleanIff(files: map<FileId, File>, owner: Owner, ids: seq<FileId>, faults: seq<Fault>)
    requires |faults| == |ids| && Pass(files, owner, ids, faults).ok
    ensures var passed := Pass(files, owner, ids, faults);
      passed.files == Cleaned(files, RequestsOf(owner, ids)) <==> passed.kept == {}
  {
    var passed := Pass(files, owner, ids, faults);
    PassProgresses(files, owner, ids, faults);
    CleaningAbsorbsProgress(files, passed.files, RequestsOf(owner, ids), RequestsOf(owner, ids));
    CleanIffNothingIsAsked(passed.files, RequestsOf(owner, ids));
    forall id ensures id in passed.kept <==> IsAsked(RequestsOf(owner, ids), passed.files, id) {
      KeptAreLeft(files, owner, ids, faults, id);
    }
  }

  /** A try of another file changes nothing about this one. */
  lemma {:induction false} OthersAreUntouched(files: map<FileId, File>, owner: Owner, ids: seq<FileId>, faults: seq<Fault>, id: FileId)
    requires |faults| == |ids| && id !in ids
    ensures var after := Pass(files, owner, ids, faults).files;
      (id in after <==> id in files) && (id in files ==> after[id] == files[id])
  {
    if ids != [] {
      OthersAreUntouched(files, owner, ids[..|ids| - 1], faults[..|ids| - 1], id);
      assert ids[|ids| - 1] in ids;
    }
  }

  /** When no id comes twice, the kept files are those whose blob deletion was so refused. */
  lemma {:induction false} KeptWhenDistinct(files: map<FileId, File>, owner: Owner, ids: seq<FileId>, faults: seq<Fault>)
    requires |faults| == |ids| && AllDistinct(ids) && Pass(files, owner, ids, faults).ok
    ensures Pass(files, owner, ids, faults).kept
         == set i | 0 <= i < |ids| && IsMistaken(files, ids[i], owner, faults[i]) :: ids[i]
  {
    if ids != [] {
      var last := |ids| - 1;
      KeptWhenDistinct(files, owner, ids[..last], faults[..last]);
      assert ids[last] !in ids[..last];
      OthersAreUntouched(files, owner, ids[..last], faults[..last], ids[last]);
      var before := Pass(files, owner, ids[..last], faults[..last]);
      assert IsMistaken(before.files, ids[last], owner, faults[last]) <==> IsMistaken(files, ids[last], owner, faults[last]);
      KeptAreLeft(files, owner, ids[..last], faults[..last], ids[last]);
      assert ids[last] !in before.kept;
      forall x
        ensures x in (set i | 0 <= i < |ids| && IsMistaken(files, ids[i], owner, faults[i]) :: ids[i])
           <==> x in before.kept || (x == ids[last] && IsMistaken(files, ids[last], owner, faults[last]))
      {
        if x in before.kept {
          var i :| 0 <= i < last && IsMistaken(files, ids[..last][i], owner, faults[..last][i]) && ids[..last][i] == x;
          assert IsMistaken(files, ids[i], owner, faults[i]);
        }
      }
    }
  }

  /** For an event that names each file once: acked and clean, if and only if no blob deletion was so refused. */
  lemma AckedEventIsCleanIff(files: map<FileId, File>, owner: Owner, ids: seq<FileId>, faults: seq<Fault>)
    requires |faults| == |ids| && AllDistinct(ids) && Pass(files, owner, ids, faults).ok
    ensures Pass(files, owner, ids, faults).files == Cleaned(files, RequestsOf(owner, ids))
       <==> forall i :: 0 <= i < |ids| ==> !IsMistaken(files, ids[i], owner, faults[i])
  {
    AckedPassIsCleanIff(files, owner, ids, faults);
    KeptWhenDistinct(files, owner, ids, faults);
    hide Pass, Cleaned, IsMistaken;
    var mistaken := set i | 0 <= i < |ids| && IsMistaken(files, ids[i], owner, faults[i]) :: ids[i];
    assert forall i :: 0 <= i < |ids| && IsMistaken(files, ids[i], owner, faults[i]) ==> ids[i] in mistaken;
  }

  /** A store that answers 403 for its own reasons: the event is acked, the row stays live and so do the bytes. */
  lemma RefusedBlobIsAcked()
    ensures var files := map[1 := File(7, Uploaded, false, true)];
      Pass(files, 7, [1], [BlobFails(Some(403), false)]) == Passed(files, true, {1})
      && Cleaned(files, RequestsOf(7, [1])) != files
  {
    var files := map[1 := File(7, Uploaded, false, true)];
    assert [1][..0] == [] && Pass(files, 7, [], []) == Passed(files, true, {});
    assert IsAsked(RequestsOf(7, [1]), files, 1);
    assert Cleaned(files, RequestsOf(7, [1]))[1] == Gone(files[1]);
  }

  /**
   * A redelivered event whose files are all gone already, or are someone else's, is acked and changes nothing, unless a
   * read fails.
   */
  lemma {:induction false} RedeliveryOfGoneFilesIsAcked(files: map<FileId, File>, owner: Owner, ids: seq<FileId>,
        faults: seq<Fault>)
    requires |faults| == |ids| && forall i :: 0 <= i < |ids| ==> !faults[i].ReadFails?
    requires forall id :: id in ids && id in files ==> files[id].deleted || files[id].owner != owner
    ensures Pass(files, owner, ids, faults) == Passed(files, true, {})
  {
    if ids != [] {
      var last := |ids| - 1;
      RedeliveryOfGoneFilesIsAcked(files, owner, ids[..last], faults[..last]);
      assert ids[last] in ids;
    }
  }

  /** What a deletion leaves, by what goes wrong: the blob goes first, the row only after it, and nothing else changes. */
  lemma TriedLeaves(files: map<FileId, File>, id: FileId, owner: Owner, fault: Fault)
    ensures Tried(files, id, owner, fault).Keys == files.Keys
    ensures forall k :: k in files && k != id ==> Tried(files, id, owner, fault)[k] == files[k]
    ensures id in files ==>
      var f, g := files[id], Tried(files, id, owner, fault)[id];
      if f.deleted || f.owner != owner || fault.ReadFails? then g == f
      else
        && g.owner == f.owner
        && (fault.NoFault? || fault == WriteFails(true) ==> g.deleted && g.status == Removed && !g.blob)
        && (fault == WriteFails(false) ==> !g.deleted && g.status == f.status && !g.blob)
        && (fault.BlobFails? ==> !g.deleted && g.status == f.status && g.blob == (f.blob && !fault.removed))
  {
  }

  /** A cleaned table: exactly the live files asked for by their owner are deleted and have lost their bytes. */
  lemma CleanedLeaves(files: map<FileId, File>, requests: set<Request>, id: FileId)
    requires id in files
    ensures id in Cleaned(files, requests)
    ensures var f, g := files[id], Cleaned(files, requests)[id];
      if !f.deleted && Request(f.owner, id) in requests then g == File(f.owner, Removed, true, false) else g == f
  {
  }

  /** What one deletion throws, and when it goes on to the next file. */
  lemma ThrownStatuses(files: map<FileId, File>, id: FileId, owner: Owner, fault: Fault)
    requires !fault.ReadFails?
    ensures AnswerTo(files, id, owner, fault) == Threw(Some(404)) <==>
      id !in files || files[id].deleted || (files[id].owner == owner && fault.BlobFails? && fault.status == Some(404))
    ensures AnswerTo(files, id, owner, fault) == Threw(Some(403)) <==>
      && id in files && !files[id].deleted
      && (files[id].owner != owner || (fault.BlobFails? && fault.status == Some(403)))
    ensures AnswerTo(files, id, owner, fault).Deleted? <==>
      id in files && !files[id].deleted && files[id].owner == owner && fault.NoFault?
  {
  }

  /** An event of one file is acked exactly when its deletion succeeds or throws one of the two statuses. */
  lemma SingleFileIsAckedIff(files: map<FileId, File>, owner: Owner, id: FileId, fault: Fault)
    ensures Pass(files, owner, [id], [fault]).ok <==>
      AnswerTo(files, id, owner, fault) in {Deleted, Threw(Some(403)), Threw(Some(404))}
  {
    assert [id][..0] == [] && [fault][..0] == [];
    assert Pass(files, owner, [], []) == Passed(files, true, {});
  }

  // Failures and redeliveries.

  /** What was left undone by an earlier attempt is done by a later one, to the same table. */
  lemma CleaningAbsorbsProgress(before: map<FileId, File>, after: map<FileId, File>, some: set<Request>,
        all: set<Request>)
    requires Progress(before, after, some) && some <= all
    ensures Cleaned(after, all) == Cleaned(before, all)
  {
  }

  lemma ProgressAddsUp(a: map<FileId, File>, b: map<FileId, File>, c: map<FileId, File>, some: set<Request>,
        more: set<Request>)
    requires Progress(a, b, some) && Progress(b, c, more)
    ensures Progress(a, c, some + more)
  {
  }

  lemma CleanedStays(a: map<FileId, File>, b: map<FileId, File>, done: set<Request>, more: set<Request>)
    requires Cleaned(a, done) == a && Progress(a, b, more)
    ensures Cleaned(b, done) == b
  {
    CleanIffNothingIsAsked(a, done);
    CleanIffNothingIsAsked(b, done);
  }

  lemma CleanIffNothingIsAsked(files: map<FileId, File>, requests: set<Request>)
    ensures Cleaned(files, requests) == files <==> forall id :: id in files ==> !IsAsked(requests, files, id)
  {
    var cleaned := Cleaned(files, requests);
    assert forall id :: id in files ==> (IsAsked(requests, files, id) <==> cleaned[id] != files[id]);
  }

  lemma CleanedTwice(files: map<FileId, File>, requests: set<Request>)
    ensures Cleaned(Cleaned(files, requests), requests) == Cleaned(files, requests)
  {
  }

  lemma NoProgress(files: map<FileId, File>)
    ensures Progress(files, files, {})
  {
  }

  /** One delivery of one event, with what went wrong for each file it tried. */
  datatype Attempt = Attempt(owner: Owner, ids: seq<FileId>, faults: seq<Fault>) {
    function Requests(): set<Request> { RequestsOf(owner, ids) }
  }

  /** The table before each attempt and after the last. */
  ghost predicate IsHistory(tables: seq<map<FileId, File>>, attempts: seq<Attempt>) {
    && |tables| == |attempts| + 1
    && forall i :: 0 <= i < |attempts| ==> IsAttempt(tables[i], tables[i + 1], attempts[i])
  }

  predicate IsAttempt(before: map<FileId, File>, after: map<FileId, File>, a: Attempt) {
    |a.faults| == |a.ids| && after == Pass(before, a.owner, a.ids, a.faults).files
  }

  /** The attempt went through and no file's last try was a mistaken skip. */
  predicate IsClean(before: map<FileId, File>, a: Attempt) {
    |a.faults| == |a.ids| && Pass(before, a.owner, a.ids, a.faults).ok && Pass(before, a.owner, a.ids, a.faults).kept == {}
  }

  function AllRequests(attempts: seq<Attempt>): set<Request> {
    if attempts == [] then {} else AllRequests(attempts[..|attempts| - 1]) + attempts[|attempts| - 1].Requests()
  }

  lemma AttemptDoes(before: map<FileId, File>, after: map<FileId, File>, a: Attempt)
    requires IsAttempt(before, after, a)
    ensures Progress(before, after, a.Requests())
    ensures IsClean(before, a) ==> after == Cleaned(before, a.Requests())
  {
    PassProgresses(before, a.owner, a.ids, a.faults);
    if IsClean(before, a) { AckedPassIsCleanIff(before, a.owner, a.ids, a.faults); }
  }

  lemma {:induction false} HistoryProgresses(tables: seq<map<FileId, File>>, attempts: seq<Attempt>, i: nat)
    requires IsHistory(tables, attempts)
    ensures Progress(tables[0], tables[|attempts|], AllRequests(attempts))
    ensures i < |attempts| && IsClean(tables[i], attempts[i]) ==>
      Cleaned(tables[|attempts|], attempts[i].Requests()) == tables[|attempts|]
  {
    hide Progress, Cleaned, IsClean, IsAttempt;
    if attempts == [] {
      assert Progress(tables[0], tables[0], {}) by { NoProgress(tables[0]); }
    } else {
      var last := |attempts| - 1;
      var now, after := tables[last], tables[last + 1];
      assert IsAttempt(now, after, attempts[last]);
      AttemptDoes(now, after, attempts[last]);
      HistoryProgresses(tables[..last + 1], attempts[..last], i);
      ProgressAddsUp(tables[0], now, after, AllRequests(attempts[..last]), attempts[last].Requests());
      if i < last {
        if IsClean(tables[i], attempts[i]) { CleanedStays(now, after, attempts[i].Requests(), attempts[last].Requests()); }
      } else if i == last {
        CleanedTwice(now, attempts[last].Requests());
      }
    }
  }

  /** Some delivery of the i-th attempt's event was clean. */
  ghost predicate Succeeded(tables: seq<map<FileId, File>>, attempts: seq<Attempt>, i: nat)
    requires |tables| > |attempts|
  {
    i < |attempts| && exists j :: 0 <= j < |attempts| && attempts[j].Requests() == attempts[i].Requests() && IsClean(tables[j], attempts[j])
  }

  lemma {:induction false} RequestIsOfAnAttempt(attempts: seq<Attempt>, r: Request) returns (i: nat)
    requires r in AllRequests(attempts)
    ensures i < |attempts| && r in attempts[i].Requests()
  {
    var last := |attempts| - 1;
    if r in attempts[last].Requests() { i := last; } else { i := RequestIsOfAnAttempt(attempts[..last], r); }
  }

  /**
   * However attempts for any number of events interleave, fail in any file and at any point, and are delivered
   * again: once each event has had an attempt that went through without a mistaken skip, the table is the one a
   * single clean pass over all of them would have left.
   */
  lemma CleanupConverges(tables: seq<map<FileId, File>>, attempts: seq<Attempt>)
    requires IsHistory(tables, attempts)
    requires forall i :: 0 <= i < |attempts| ==> Succeeded(tables, attempts, i)
    ensures tables[|attempts|] == Cleaned(tables[0], AllRequests(attempts))
  {
    var first, final, all := tables[0], tables[|attempts|], AllRequests(attempts);
    HistoryProgresses(tables, attempts, 0);
    CleaningAbsorbsProgress(first, final, all, all);
    hide Progress, IsClean, IsAttempt, Cleaned;
    forall id, i | id in final && 0 <= i < |attempts| ensures !IsAsked(attempts[i].Requests(), final, id) {
      assert Succeeded(tables, attempts, i);
      var j :| 0 <= j < |attempts| && attempts[j].Requests() == attempts[i].Requests() && IsClean(tables[j], attempts[j]);
      HistoryProgresses(tables, attempts, j);
      CleanIffNothingIsAsked(final, attempts[j].Requests());
    }
    forall id | id in final && Request(final[id].owner, id) in all ensures !IsAsked(all, final, id) {
      var i := RequestIsOfAnAttempt(attempts, Request(final[id].owner, id));
      assert !IsAsked(attempts[i].Requests(), final, id);
    }
    CleanIffNothingIsAsked(final, all);
  }

  /**
   * One event, any number of failed deliveries and then the acked one: the table ends clean if and only if no
   * file's last try in the acked delivery was a mistaken skip.
   */
  lemma EventEndsCleanIff(tables: seq<map<FileId, File>>, attempts: seq<Attempt>)
    requires IsHistory(tables, attempts) && attempts != []
    requires forall i :: 0 <= i < |attempts| ==> attempts[i].Requests() == attempts[0].Requests()
    requires var last, before := attempts[|attempts| - 1], tables[|attempts| - 1];
      |last.faults| == |last.ids| && Pass(before, last.owner, last.ids, last.faults).ok
    ensures tables[|attempts|] == Cleaned(tables[0], attempts[0].Requests())
       <==> IsClean(tables[|attempts| - 1], attempts[|attempts| - 1])
  {
    var last, n := attempts[|attempts| - 1], |attempts| - 1;
    var all := attempts[0].Requests();
    hide Progress, Cleaned, Pass;
    assert IsAttempt(tables[n], tables[n + 1], last);
    AckedPassIsCleanIff(tables[n], last.owner, last.ids, last.faults);
    assert IsHistory(tables[..n + 1], attempts[..n]);
    HistoryProgresses(tables[..n + 1], attempts[..n], 0);
    AllTheSame(attempts[..n], all);
    CleaningAbsorbsProgress(tables[0], tables[n], AllRequests(attempts[..n]), all);
  }

  lemma {:induction false} AllTheSame(attempts: seq<Attempt>, requests: set<Request>)
    requires forall i :: 0 <= i < |attempts| ==> attempts[i].Requests() == requests
    ensures AllRequests(attempts) <= requests
  {
    if attempts != [] { AllTheSame(attempts[..|attempts| - 1], requests); }
  }

  /** Nobody's file is touched by another owner's event, and a file not asked for is left as it was. */
  lemma OnlyAskedFilesChange(tables: seq<map<FileId, File>>, attempts: seq<Attempt>, id: FileId)
    requires IsHistory(tables, attempts) && id in tables[0]
    requires Request(tables[0][id].owner, id) !in AllRequests(attempts)
    ensures id in tables[|attempts|] && tables[|attempts|][id] == tables[0][id]
  {
    HistoryProgresses(tables, attempts, 0);
  }
}
