/**
 * The bookkeeping of a drive upload: which selected files clash with a
 * listed name, the messages the view shows while and after uploading, and
 * how the outcomes of the per-file calls are counted.
 */
module DriveUpload {

  import opened JsValues
  import opened Text
  import opened Platform
  import opened DriveModels
  import DrivePaths

  /** The text that marks the view's error as a duplicate-name warning. */
  const DuplicateMarker: string := "Files with the same name already exist"

  /** `existingFileNames`: the lower-cased display names of the listed entries, in listing order. */
  function ExistingNames(files: seq<FileItemDto>): seq<string> {
    seq(|files|, i requires 0 <= i < |files| => ToLower(DrivePaths.DisplayName(files[i].name)))
  }

  /** `existingFileNames.includes(file.name.toLowerCase())`. */
  predicate IsDuplicate(existing: seq<string>, name: string) {
    ToLower(name) in existing
  }

  /** The names pushed to `duplicateFiles`, in selection order. */
  function Duplicates(existing: seq<string>, names: seq<string>): seq<string> {
    if |names| == 0 then []
    else Duplicates(existing, names[..|names| - 1])
         + (if IsDuplicate(existing, names[|names| - 1]) then [names[|names| - 1]] else [])
  }

  /** The files pushed to `validFiles`, in selection order. */
  function Fresh(existing: seq<string>, names: seq<string>): seq<string> {
    if |names| == 0 then []
    else Fresh(existing, names[..|names| - 1])
         + (if IsDuplicate(existing, names[|names| - 1]) then [] else [names[|names| - 1]])
  }

  /** The `forEach` of uploadFiles: each selected file goes to one of the two lists. */
  method PartitionUploads(existing: seq<string>, names: seq<string>) returns (duplicates: seq<string>, valid: seq<string>)
    ensures duplicates == Duplicates(existing, names)
    ensures valid == Fresh(existing, names)
  {
    duplicates, valid := [], [];
    var i := 0;
    while i < |names|
      invariant 0 <= i <= |names|
      invariant duplicates == Duplicates(existing, names[..i])
      invariant valid == Fresh(existing, names[..i])
    {
      assert names[..i + 1][..i] == names[..i];
      if IsDuplicate(existing, names[i]) {
        duplicates := duplicates + [names[i]];
      } else {
        valid := valid + [names[i]];
      }
      i := i + 1;
    }
    assert names[..i] == names;
  }

  lemma {:induction false} PartitionMultiset(existing: seq<string>, names: seq<string>)
    ensures multiset(Duplicates(existing, names)) + multiset(Fresh(existing, names)) == multiset(names)
  {
    if |names| > 0 {
      var init := names[..|names| - 1];
      var x := names[|names| - 1];
      PartitionMultiset(existing, init);
      assert names == init + [x];
      assert multiset(names) == multiset(init) + multiset{x};
      if IsDuplicate(existing, x) {
        assert Duplicates(existing, names) == Duplicates(existing, init) + [x];
        assert Fresh(existing, names) == Fresh(existing, init);
      } else {
        assert Duplicates(existing, names) == Duplicates(existing, init);
        assert Fresh(existing, names) == Fresh(existing, init) + [x];
      }
    }
  }

  lemma {:induction false} PartitionFlags(existing: seq<string>, names: seq<string>)
    ensures forall x :: x in Duplicates(existing, names) ==> IsDuplicate(existing, x)
    ensures forall x :: x in Fresh(existing, names) ==> !IsDuplicate(existing, x)
  {
    if |names| > 0 {
      PartitionFlags(existing, names[..|names| - 1]);
    }
  }

  /**
   * Every selected file lands in exactly one list: the two lists together
   * are the selection, a name is a duplicate exactly when it clashes, and
   * with no clash every file is valid.
   */
  lemma PartitionExact(existing: seq<string>, names: seq<string>)
    ensures multiset(Duplicates(existing, names)) + multiset(Fresh(existing, names)) == multiset(names)
    ensures forall x :: x in Duplicates(existing, names) <==> x in names && IsDuplicate(existing, x)
    ensures forall x :: x in Fresh(existing, names) <==> x in names && !IsDuplicate(existing, x)
    ensures (forall x :: x in names ==> !IsDuplicate(existing, x)) ==> Duplicates(existing, names) == []
  {
    PartitionMultiset(existing, names);
    PartitionFlags(existing, names);
    var d, f := Duplicates(existing, names), Fresh(existing, names);
    forall x ensures x in names <==> x in d || x in f {
      assert x in names <==> x in multiset(names);
      assert x in d <==> x in multiset(d);
      assert x in f <==> x in multiset(f);
    }
    if |d| > 0 {
      assert d[0] in d;
    }
  }

  /**
   * A selected file clashes exactly when its lower-cased name is the
   * lower-cased display name of a listed entry.
   */
  lemma DuplicateAgainstListing(files: seq<FileItemDto>, name: string)
    ensures IsDuplicate(ExistingNames(files), name) <==>
              exists i :: 0 <= i < |files| && ToLower(name) == ToLower(DrivePaths.DisplayName(files[i].name))
  {
    var existing := ExistingNames(files);
    if IsDuplicate(existing, name) {
      var i :| 0 <= i < |existing| && existing[i] == ToLower(name);
      assert ToLower(name) == ToLower(DrivePaths.DisplayName(files[i].name));
    }
    if exists i :: 0 <= i < |files| && ToLower(name) == ToLower(DrivePaths.DisplayName(files[i].name)) {
      var i :| 0 <= i < |files| && ToLower(name) == ToLower(DrivePaths.DisplayName(files[i].name));
      assert existing[i] == ToLower(name);
    }
  }

  /** The duplicate warning: the marker, then the clashing names separated by ", ". */
  function DuplicateMessage(duplicates: seq<string>): (m: string)
    ensures StartsWith(m, DuplicateMarker)
  {
    var m := DuplicateMarker + ": " + Join(duplicates, ", ");
    assert m[..|DuplicateMarker|] == DuplicateMarker;
    m
  }

  function NothingUploadedMessage(duplicates: seq<string>): string {
    DuplicateMessage(duplicates) + ". No files uploaded."
  }

  function ContinuingMessage(duplicates: seq<string>, remaining: nat): string {
    DuplicateMessage(duplicates) + ". Continuing with " + NatToString(remaining) + " remaining files."
  }

  /** `Uploading ${done}/${total} files...`. */
  function ProgressText(done: nat, total: nat): string {
    "Uploading " + NatToString(done) + "/" + NatToString(total) + " files..."
  }

  /** `${err.message || 'Unknown error'}`. */
  function ErrorText(err: HttpError): string {
    Display(Or(err.message, Str("Unknown error")))
  }

  /**
   * `csrfResponse.token || csrfResponse.csrfToken || csrfResponse._csrf`;
   * None where a null or undefined response makes the first read throw.
   */
  function UploadToken(csrfResponse: JsValue): (r: Option<JsValue>)
    ensures r.None? <==> IsNullish(csrfResponse)
    ensures r.Some? ==> (Truthy(r.value) <==>
              Truthy(OptGet(csrfResponse, "token")) || Truthy(OptGet(csrfResponse, "csrfToken")) || Truthy(OptGet(csrfResponse, "_csrf")))
    ensures r.Some? && Truthy(OptGet(csrfResponse, "token")) ==> r.value == OptGet(csrfResponse, "token")
    ensures r.Some? && !Truthy(OptGet(csrfResponse, "token")) && Truthy(OptGet(csrfResponse, "csrfToken")) ==>
              r.value == OptGet(csrfResponse, "csrfToken")
    ensures r.Some? && !Truthy(OptGet(csrfResponse, "token")) && !Truthy(OptGet(csrfResponse, "csrfToken")) ==>
              r.value == OptGet(csrfResponse, "_csrf")
  {
    match Get(csrfResponse, "token")
    case None => None
    case Some(t) => Some(Or(Or(t, OptGet(csrfResponse, "csrfToken")), OptGet(csrfResponse, "_csrf")))
  }

  /**
   * The outcome of one file's calls: stored, the PUT to the pre-signed URL
   * failed, or the request for the URL failed.
   */
  datatype UploadOutcome = Stored | StorageFailed(err: HttpError) | UrlFailed(err: HttpError)

  /** The URL request was refused for authentication: the callback returns before the completion check. */
  predicate IsAuthUrlFailure(o: UploadOutcome) {
    o.UrlFailed? && o.err.IsAuthFailure()
  }

  /** What one outcome writes into the error signal; a stored file writes nothing. */
  function EventMessage(name: string, o: UploadOutcome): (m: Option<string>)
    ensures m.None? <==> o.Stored?
  {
    match o
    case Stored => None
    case StorageFailed(err) =>
      Some("Upload to storage failed for " + name + ": " + IntToString(err.status) + " " + ErrorText(err))
    case UrlFailed(err) =>
      if err.IsAuthFailure() then Some("Authentication failed for " + name + ". Please check your login status.")
      else Some("Failed to get upload URL for " + name + ": " + IntToString(err.status) + " " + ErrorText(err))
  }

  /** The error signal after one outcome: its message, or the signal unchanged when the file was stored. */
  function AfterEvent(current: Option<string>, name: string, o: UploadOutcome): (r: Option<string>)
    ensures o.Stored? ==> r == current
    ensures !o.Stored? ==> r.Some? && Some(r.value) == EventMessage(name, o)
  {
    match EventMessage(name, o)
    case None => current
    case Some(m) => Some(m)
  }

  /** The error signal after the outcomes of `names`, in order: the last failure's message wins. */
  function MessageAfter(current: Option<string>, names: seq<string>, outcomes: seq<UploadOutcome>): Option<string>
    requires |names| == |outcomes|
  {
    if |outcomes| == 0 then current
    else AfterEvent(MessageAfter(current, names[..|names| - 1], outcomes[..|outcomes| - 1]), names[|names| - 1], outcomes[|outcomes| - 1])
  }

  /** Some outcome is a failure. */
  predicate SomeFailed(outcomes: seq<UploadOutcome>) {
    exists i :: 0 <= i < |outcomes| && !outcomes[i].Stored?
  }

  /**
   * After a failure the error signal holds the last failure's message,
   * whatever it held before the uploads: every failure path writes its own
   * message over the signal.
   */
  lemma {:induction false} MessageAfterFailure(current: Option<string>, names: seq<string>, outcomes: seq<UploadOutcome>)
    requires |names| == |outcomes|
    requires SomeFailed(outcomes)
    ensures MessageAfter(current, names, outcomes) == MessageAfter(None, names, outcomes)
    ensures exists j :: 0 <= j < |outcomes| && !outcomes[j].Stored? &&
              MessageAfter(current, names, outcomes) == EventMessage(names[j], outcomes[j])
  {
    var k := |outcomes| - 1;
    if outcomes[k].Stored? {
      var i :| 0 <= i < |outcomes| && !outcomes[i].Stored?;
      assert outcomes[..k][i] == outcomes[i];
      MessageAfterFailure(current, names[..k], outcomes[..k]);
      var j :| 0 <= j < k && !outcomes[..k][j].Stored? &&
                MessageAfter(current, names[..k], outcomes[..k]) == EventMessage(names[..k][j], outcomes[..k][j]);
      assert names[..k][j] == names[j] && outcomes[..k][j] == outcomes[j];
    } else {
      assert MessageAfter(current, names, outcomes) == EventMessage(names[k], outcomes[k]);
    }
  }

  /** `completedUploads` after the outcomes. */
  function StoredCount(outcomes: seq<UploadOutcome>): (c: nat)
    ensures c <= |outcomes|
  {
    if |outcomes| == 0 then 0
    else StoredCount(outcomes[..|outcomes| - 1]) + (if outcomes[|outcomes| - 1].Stored? then 1 else 0)
  }

  /** Every file counts as completed exactly when every outcome is a stored file. */
  lemma {:induction false} StoredCountAll(outcomes: seq<UploadOutcome>)
    ensures StoredCount(outcomes) == |outcomes| <==> forall i :: 0 <= i < |outcomes| ==> outcomes[i].Stored?
  {
    if |outcomes| > 0 {
      var prefix := outcomes[..|outcomes| - 1];
      StoredCountAll(prefix);
      if forall i :: 0 <= i < |outcomes| ==> outcomes[i].Stored? {
        assert forall i :: 0 <= i < |prefix| ==> prefix[i].Stored? by {
          forall i | 0 <= i < |prefix| ensures prefix[i].Stored? {
            assert prefix[i] == outcomes[i];
          }
        }
      }
      if StoredCount(outcomes) == |outcomes| {
        forall i | 0 <= i < |outcomes| ensures outcomes[i].Stored? {
          if i < |prefix| {
            assert prefix[i] == outcomes[i];
          }
        }
      }
    }
  }

  /** `completed + failed === files.length` is reached, and checked, only at the last outcome. */
  predicate Completes(outcomes: seq<UploadOutcome>) {
    |outcomes| > 0 && !IsAuthUrlFailure(outcomes[|outcomes| - 1])
  }

  /** The number of outcomes that send the view to /login. */
  function AuthFailures(outcomes: seq<UploadOutcome>): (k: nat)
    ensures k <= |outcomes|
  {
    if |outcomes| == 0 then 0
    else AuthFailures(outcomes[..|outcomes| - 1]) + (if IsAuthUrlFailure(outcomes[|outcomes| - 1]) then 1 else 0)
  }

  /** `${completed} files uploaded successfully, ${failed} failed`. */
  function Summary(completed: nat, failed: nat): string {
    NatToString(completed) + " files uploaded successfully, " + NatToString(failed) + " failed"
  }

  predicate HasDuplicateWarning(current: Option<string>) {
    current.Some? && Contains(current.value, DuplicateMarker)
  }

  /**
   * finishUpload's message: the error signal after the upload, from the
   * error before it and the two counts.
   */
  function FinishedError(current: Option<string>, completed: nat, failed: nat): Option<string> {
    var summary := Summary(completed, failed);
    if failed > 0 then
      if HasDuplicateWarning(current) then Some(current.value + " Additionally: " + summary)
      else Some(summary)
    else if completed > 0 && HasDuplicateWarning(current) then
      Some(current.value + " Successfully uploaded " + NatToString(completed) + " files.")
    else if completed > 0 then None
    else current
  }

  /**
   * A duplicate warning still in the error signal when finishUpload reads
   * it is kept; a failure always reports the summary; a clean upload without a warning clears the error; with
   * nothing uploaded and nothing failed the error stays.
   */
  lemma FinishedErrorSpec(current: Option<string>, completed: nat, failed: nat)
    ensures var r := FinishedError(current, completed, failed);
      && (HasDuplicateWarning(current) ==> r.Some? && StartsWith(r.value, current.value))
      && (failed > 0 ==> r.Some? && EndsWith(r.value, Summary(completed, failed)))
      && (failed > 0 && !HasDuplicateWarning(current) ==> r == Some(Summary(completed, failed)))
      && (failed == 0 && completed > 0 && !HasDuplicateWarning(current) ==> r.None?)
      && (failed == 0 && completed == 0 ==> r == current)
  {
    var r := FinishedError(current, completed, failed);
    var summary := Summary(completed, failed);
    if HasDuplicateWarning(current) && (failed > 0 || completed > 0) {
      assert r.value[..|current.value|] == current.value;
    }
    if failed > 0 {
      assert r.value[|r.value| - |summary|..] == summary;
    }
  }

  /**
   * The duplicate warning set before the uploads does not survive a
   * failure: unless the last failure's own message carries the marker,
   * finishUpload reports the summary alone.
   */
  lemma DuplicateWarningLostOnFailure(current: Option<string>, names: seq<string>, outcomes: seq<UploadOutcome>)
    requires |names| == |outcomes|
    requires SomeFailed(outcomes)
    requires !HasDuplicateWarning(MessageAfter(None, names, outcomes))
    ensures var completed := StoredCount(outcomes);
      FinishedError(MessageAfter(current, names, outcomes), completed, |outcomes| - completed)
        == Some(Summary(completed, |outcomes| - completed))
  {
    MessageAfterFailure(current, names, outcomes);
    StoredCountAll(outcomes);
  }

  /**
   * finishUpload as its comment intends: the duplicate warning set before
   * the uploads (`before`) is the message it extends, whatever the
   * failures wrote since; without such a warning it reads the signal as
   * the code does.
   */
  function FinishedErrorKeepingWarning(before: Option<string>, current: Option<string>, completed: nat, failed: nat): Option<string> {
    FinishedError(if HasDuplicateWarning(before) then before else current, completed, failed)
  }

  /**
   * With the intended reading, a duplicate warning survives any upload that
   * counted a file, and a failure still ends with the summary; without a
   * warning it is the code's finishUpload.
   */
  lemma DuplicateWarningKept(before: Option<string>, names: seq<string>, outcomes: seq<UploadOutcome>)
    requires |names| == |outcomes|
    ensures var completed := StoredCount(outcomes);
      var r := FinishedErrorKeepingWarning(before, MessageAfter(before, names, outcomes), completed, |outcomes| - completed);
      && (HasDuplicateWarning(before) && |outcomes| > 0 ==> r.Some? && StartsWith(r.value, before.value))
      && (SomeFailed(outcomes) ==> r.Some? && EndsWith(r.value, Summary(completed, |outcomes| - completed)))
      && (!HasDuplicateWarning(before) ==> r == FinishedError(MessageAfter(before, names, outcomes), completed, |outcomes| - completed))
  {
    var completed := StoredCount(outcomes);
    var m := MessageAfter(before, names, outcomes);
    StoredCountAll(outcomes);
    if SomeFailed(outcomes) {
      MessageAfterFailure(before, names, outcomes);
    }
    FinishedErrorSpec(if HasDuplicateWarning(before) then before else m, completed, |outcomes| - completed);
  }

  /** `k` navigations to /login. */
  function LoginRoutes(k: nat): seq<string> {
    seq(k, _ => "/login")
  }

  /** The signals the callbacks of an upload write. */
  datatype UploadSignals = UploadSignals(
    error: Option<string>,
    uploading: bool,
    selected: Option<seq<string>>,
    progress: string,
    reloads: nat,
    navigations: seq<string>)

  /**
   * finishUpload: uploading ends, the selection and the progress are
   * cleared, the final message replaces the error, and one reload is
   * scheduled.
   */
  function Finish(s: UploadSignals, completed: nat, failed: nat): UploadSignals {
    s.(uploading := false, selected := None, progress := "", error := FinishedError(s.error, completed, failed),
       reloads := s.reloads + 1)
  }

  /** The writes of one file's callbacks before the completion check: its message, progress and redirect. */
  function Arrive(s: UploadSignals, name: string, o: UploadOutcome, total: nat, completed: nat): UploadSignals {
    s.(error := AfterEvent(s.error, name, o),
       navigations := s.navigations + (if IsAuthUrlFailure(o) then ["/login"] else []),
       progress := if o.Stored? then ProgressText(completed + 1, total) else s.progress)
  }

  /**
   * The callbacks of one file, given the counts before it: its writes,
   * then finishUpload when it reaches the completion check with the counts
   * at `total`.
   */
  function OnOutcome(s: UploadSignals, name: string, o: UploadOutcome, total: nat, completed: nat, failed: nat): UploadSignals {
    var completed' := completed + (if o.Stored? then 1 else 0);
    var failed' := failed + (if o.Stored? then 0 else 1);
    var s' := Arrive(s, name, o, total, completed);
    if !IsAuthUrlFailure(o) && completed' + failed' == total then Finish(s', completed', failed') else s'
  }

  /** The signals after the outcomes of `names` arrive in order, out of `total` files. */
  function Replay(s: UploadSignals, names: seq<string>, outcomes: seq<UploadOutcome>, total: nat): UploadSignals
    requires |names| == |outcomes|
  {
    if |outcomes| == 0 then s
    else Step(Replay(s, names[..|names| - 1], outcomes[..|outcomes| - 1], total), names, outcomes, total)
  }

  /** The last of `outcomes` applied to `r`, with the counts the ones before it leave. */
  function Step(r: UploadSignals, names: seq<string>, outcomes: seq<UploadOutcome>, total: nat): UploadSignals
    requires |names| == |outcomes| > 0
  {
    var k := |outcomes| - 1;
    var completed := StoredCount(outcomes[..k]);
    OnOutcome(r, names[k], outcomes[k], total, completed, k - completed)
  }

  /** The progress while files are arriving: unchanged until one is stored, then the stored count. */
  function ProgressAfter(s: UploadSignals, outcomes: seq<UploadOutcome>, total: nat): string {
    if StoredCount(outcomes) == 0 then s.progress else ProgressText(StoredCount(outcomes), total)
  }

  lemma {:induction false} LoginRoutesStep(k: nat)
    ensures LoginRoutes(k + 1) == LoginRoutes(k) + ["/login"]
  {
    assert LoginRoutes(k + 1)[..k] == LoginRoutes(k);
  }

  /**
   * The state `r` is the arriving state of `outcomes`, field by field: the
   * last failure's message, one /login per authentication failure, the
   * stored count's progress, and the other signals as they were.
   */
  predicate IsArriving(r: UploadSignals, s: UploadSignals, names: seq<string>, outcomes: seq<UploadOutcome>, total: nat)
    requires |names| == |outcomes|
  {
    && r.error == MessageAfter(s.error, names, outcomes)
    && r.navigations == s.navigations + LoginRoutes(AuthFailures(outcomes))
    && r.progress == ProgressAfter(s, outcomes, total)
    && r.uploading == s.uploading && r.selected == s.selected && r.reloads == s.reloads
  }

  /** The writes of the last outcome extend the arriving state of the ones before it. */
  lemma ArriveStep(r: UploadSignals, s: UploadSignals, names: seq<string>, outcomes: seq<UploadOutcome>, total: nat)
    requires |names| == |outcomes| > 0
    requires IsArriving(r, s, names[..|names| - 1], outcomes[..|outcomes| - 1], total)
    ensures var k := |outcomes| - 1;
            IsArriving(Arrive(r, names[k], outcomes[k], total, StoredCount(outcomes[..k])), s, names, outcomes, total)
  {
    var k := |outcomes| - 1;
    LoginRoutesStep(AuthFailures(outcomes[..k]));
    ArriveProgress(r.progress, s, outcomes, total);
  }

  /** The progress after one more outcome: the new stored count for a stored file, unchanged otherwise. */
  lemma ArriveProgress(progress: string, s: UploadSignals, outcomes: seq<UploadOutcome>, total: nat)
    requires |outcomes| > 0
    requires progress == ProgressAfter(s, outcomes[..|outcomes| - 1], total)
    ensures var k := |outcomes| - 1;
            (if outcomes[k].Stored? then ProgressText(StoredCount(outcomes[..k]) + 1, total) else progress)
              == ProgressAfter(s, outcomes, total)
  {
    var k := |outcomes| - 1;
    var p := StoredCount(outcomes[..k]);
    if outcomes[k].Stored? {
      assert StoredCount(outcomes) == p + 1;
    } else {
      assert StoredCount(outcomes) == p;
    }
  }

  /** The last outcome, when it is not the last of `total` or fails the URL request for authentication, does not finish. */
  lemma OnOutcomeArriving(r: UploadSignals, s: UploadSignals, names: seq<string>, outcomes: seq<UploadOutcome>, total: nat)
    requires |names| == |outcomes| > 0
    requires |outcomes| < total || !Completes(outcomes)
    requires IsArriving(r, s, names[..|names| - 1], outcomes[..|outcomes| - 1], total)
    ensures IsArriving(Step(r, names, outcomes, total), s, names, outcomes, total)
  {
    ArriveStep(r, s, names, outcomes, total);
  }

  /**
   * Before the last of `total` outcomes, or when the last one is an
   * authentication failure of the URL request, the upload is still in
   * progress.
   */
  lemma {:induction false} ReplayArriving(s: UploadSignals, names: seq<string>, outcomes: seq<UploadOutcome>, total: nat)
    requires |names| == |outcomes| <= total
    requires |outcomes| < total || !Completes(outcomes)
    ensures IsArriving(Replay(s, names, outcomes, total), s, names, outcomes, total)
  {
    if |outcomes| > 0 {
      var k := |outcomes| - 1;
      var r := Replay(s, names[..k], outcomes[..k], total);
      ReplayArriving(s, names[..k], outcomes[..k], total);
      OnOutcomeArriving(r, s, names, outcomes, total);
    } else {
      assert LoginRoutes(0) == [];
    }
  }

  /**
   * The upload's final state after `outcomes`, finishUpload on their
   * arriving state: the final message over the last failure's, one /login
   * per authentication failure, uploading over, the selection and the
   * progress cleared, and one more reload.
   */
  predicate IsFinished(r: UploadSignals, s: UploadSignals, names: seq<string>, outcomes: seq<UploadOutcome>, total: nat)
    requires |names| == |outcomes|
  {
    && r.error == FinishedError(MessageAfter(s.error, names, outcomes), StoredCount(outcomes), |outcomes| - StoredCount(outcomes))
    && r.navigations == s.navigations + LoginRoutes(AuthFailures(outcomes))
    && !r.uploading && r.selected.None? && r.progress == "" && r.reloads == s.reloads + 1
  }

  /** finishUpload on the arriving state of all the outcomes, with their counts, is the finished state. */
  lemma FinishArriving(a: UploadSignals, s: UploadSignals, names: seq<string>, outcomes: seq<UploadOutcome>, total: nat)
    requires |names| == |outcomes|
    requires IsArriving(a, s, names, outcomes, total)
    ensures IsFinished(Finish(a, StoredCount(outcomes), |outcomes| - StoredCount(outcomes)), s, names, outcomes, total)
  {
  }

  /** The last of `total` outcomes, when it reaches the completion check, finishes the upload. */
  lemma OnOutcomeFinishes(r: UploadSignals, s: UploadSignals, names: seq<string>, outcomes: seq<UploadOutcome>, total: nat)
    requires |names| == |outcomes| == total
    requires Completes(outcomes)
    requires IsArriving(r, s, names[..|names| - 1], outcomes[..|outcomes| - 1], total)
    ensures IsFinished(Step(r, names, outcomes, total), s, names, outcomes, total)
  {
    var k := |outcomes| - 1;
    var o := outcomes[k];
    var c := StoredCount(outcomes[..k]);
    var a := Arrive(r, names[k], o, total, c);
    ArriveStep(r, s, names, outcomes, total);
    FinishArriving(a, s, names, outcomes, total);
    var stored := StoredCount(outcomes);
    assert stored == c + (if o.Stored? then 1 else 0);
    assert Step(r, names, outcomes, total) == Finish(a, stored, |outcomes| - stored);
  }

  /**
   * After the last of `total` outcomes, when it reaches the completion
   * check, the upload is finished.
   */
  lemma ReplayFinished(s: UploadSignals, names: seq<string>, outcomes: seq<UploadOutcome>, total: nat)
    requires |names| == |outcomes| == total
    requires Completes(outcomes)
    ensures IsFinished(Replay(s, names, outcomes, total), s, names, outcomes, total)
  {
    var k := |outcomes| - 1;
    var r := Replay(s, names[..k], outcomes[..k], total);
    ReplayArriving(s, names[..k], outcomes[..k], total);
    OnOutcomeFinishes(r, s, names, outcomes, total);
  }
}
