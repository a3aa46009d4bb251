/** `FileUploadController.uploadFile`: checks the upload, reads the user id
    out of the bearer token, loads the assignment, stores the archive,
    records a Pending submission and queues it for execution. Base64
    decoding of the token's payload, the file copy, the clock and the
    generated submission id are inputs. */
module FileUploadController {
  import opened Text
  import opened Entities
  import opened SubmissionQueue
  import opened ExecutionQueueService

  const ZipMimeType: string := "application/zip"
  const ZipExtension: string := ".zip"

  const BadFileTypeMessage: string := "Bad file type. Formats accepted: .zip"
  const UserNotFoundMessage: string := "User not found"
  const InvalidAssignmentMessage: string := "Invalid assignment ID."
  const UploadFailedMessage: string := "Failed to upload the file. Please try again."
  const QueuedMessage: string := "File uploaded successfully. Submission queued for execution."

  /** The file-type check: the original name ends with `.zip` and the
      declared content type is exactly `application/zip`. */
  predicate IsZipUpload(fileName: string, contentType: Option<string>)
  {
    EndsWith(fileName, ZipExtension) && contentType == Some(ZipMimeType)
  }

  /** Why reading the user id failed: the token has no second
      `.`-separated segment, or the claim holding `sub` has no `:` (both an
      ArrayIndexOutOfBoundsException, which nothing catches), or the
      payload is not Base64 (an IllegalArgumentException). */
  datatype TokenFault = MissingPayload | MissingColon | BadBase64

  /** The position of the first fragment that contains `sub`, or -1. */
  function FirstSubFragment(parts: seq<string>): (k: int)
    ensures -1 <= k < |parts|
    ensures k >= 0 ==> Contains(parts[k], "sub")
    ensures forall j :: 0 <= j < |parts| && (k == -1 || j < k) ==> !Contains(parts[j], "sub")
  {
    if parts == [] then -1
    else if Contains(parts[0], "sub") then 0
    else var k := FirstSubFragment(parts[1..]); if k == -1 then -1 else k + 1
  }

  /** The value `extractUserID` reads from a decoded payload: the text
      between the first and second `:` of the first `,`-separated fragment
      that contains `sub`, without its double quotes; the empty text when
      no fragment contains `sub`. */
  function UserIdOfPayload(payload: string): (r: Result<string, TokenFault>)
    ensures r.Ok? ==> '"' !in r.value
    ensures FirstSubFragment(JavaSplit(payload, ',')) == -1 ==> r == Ok("")
    ensures r.Err? ==> r.error == MissingColon
  {
    var fragments := JavaSplit(payload, ',');
    var k := FirstSubFragment(fragments);
    if k == -1 then Ok("")
    else
      var fields := JavaSplit(fragments[k], ':');
      if |fields| < 2 then Err(MissingColon) else Ok(RemoveChar(fields[1], '"'))
  }

  /** `extractUserID(token)`: split the token at `.`, Base64-decode the
      second segment (`decode` returns `None` where the decoder throws),
      then scan the payload's fragments for the first that contains
      `sub`. */
  method ExtractUserId(token: string, decode: string -> Option<string>) returns (r: Result<string, TokenFault>)
    ensures |JavaSplit(token, '.')| < 2 ==> r == Err(MissingPayload)
    ensures |JavaSplit(token, '.')| >= 2 && decode(JavaSplit(token, '.')[1]).None? ==> r == Err(BadBase64)
    ensures |JavaSplit(token, '.')| >= 2 && decode(JavaSplit(token, '.')[1]).Some? ==>
      r == UserIdOfPayload(decode(JavaSplit(token, '.')[1]).value)
    ensures r.Ok? ==> '"' !in r.value
    ensures r == ExtractUserIdSpec(token, decode)
  {
    var tokenParts := JavaSplit(token, '.');
    if |tokenParts| < 2 {
      return Err(MissingPayload);
    }
    var decoded := decode(tokenParts[1]);
    if decoded.None? {
      return Err(BadBase64);
    }
    var payloadParts := JavaSplit(decoded.value, ',');
    ghost var k := FirstSubFragment(payloadParts);
    var i := 0;
    while i < |payloadParts|
      invariant 0 <= i <= |payloadParts|
      invariant forall j :: 0 <= j < i ==> !Contains(payloadParts[j], "sub")
      invariant k == -1 || i <= k
    {
      if Contains(payloadParts[i], "sub") {
        assert k == i;
        var fields := JavaSplit(payloadParts[i], ':');
        if |fields| < 2 {
          return Err(MissingColon);
        }
        return Ok(RemoveChar(fields[1], '"'));
      }
      i := i + 1;
    }
    assert k == -1;
    return Ok("");
  }

  /** A character that does not occur is not found. */
  lemma AbsentCharNotFound(s: string, c: char)
    requires c !in s
    ensures IndexOf(s, [c]) == -1
  {
    forall j | 0 <= j < |s| ensures !OccursAt(s, [c], j) {
      assert s[j..j + 1] == [s[j]];
    }
  }

  /** A payload whose only claim is the subject, written the usual way,
      yields the subject together with the closing brace of the JSON
      object: the brace is not removed, only double quotes are. This holds
      for every subject free of `:`, `,` and `"`. */
  lemma SubjectLastKeepsBrace(subject: string)
    requires ':' !in subject && ',' !in subject && '"' !in subject
    ensures UserIdOfPayload("{\"sub\":\"" + subject + "\"}") == Ok(subject + "}")
  {
    var head, quote, close := "{\"sub\"", "\"", "\"}";
    var tail := quote + subject + close;
    var p := "{\"sub\":\"" + subject + "\"}";
    PayloadHalves(head, quote, subject, close);
    assert p == head + ":" + tail;
    assert ',' !in p;
    AbsentCharNotFound(p, ',');
    assert JavaSplit(p, ',') == [p];
    Regroup(head, ":", tail);
    SubjectKeyOccurs(head, ":" + tail);
    assert Contains(p, "sub");
    assert FirstSubFragment([p]) == 0;
    SplitAtOneColon(head, tail);
    RemoveCharAppend(quote + subject, close, '"');
    RemoveCharAppend(quote, subject, '"');
    RemoveCharAbsent(subject, '"');
    assert RemoveChar(quote, '"') == [];
    assert RemoveChar(close, '"') == "}";
  }

  /** The key `sub` sits at index 2 of any text that starts with the
      quoted key. */
  lemma SubjectKeyOccurs(head: string, rest: string)
    requires head == "{\"sub\""
    ensures OccursAt(head + rest, "sub", 2)
  {
    var w := (head + rest)[2..5];
    assert w[0] == head[2] == 's';
    assert w[1] == head[3] == 'u';
    assert w[2] == head[4] == 'b';
    assert w == "sub";
  }

  /** The payload is the quoted key, the colon and the quoted subject with
      the closing brace. */
  lemma PayloadHalves(head: string, quote: string, subject: string, close: string)
    requires head == "{\"sub\"" && quote == "\"" && close == "\"}"
    ensures "{\"sub\":\"" + subject + "\"}" == head + ":" + (quote + subject + close)
  {
    assert "{\"sub\":\"" == head + ":" + quote;
  }

  /** Text holding a single `:` splits into the parts on either side. */
  lemma SplitAtOneColon(head: string, tail: string)
    requires ':' !in head && ':' !in tail && tail != []
    ensures JavaSplit(head + ":" + tail, ':') == [head, tail]
  {
    var p := head + ":" + tail;
    AbsentCharNotFound(head, ':');
    forall j | 0 <= j < |head| ensures !OccursAt(p, ":", j) {
      assert p[j..j + 1] == [head[j]];
    }
    assert p[|head|..|head| + 1] == ":";
    IndexOfIs(p, ":", |head|);
    assert p[|head| + 1..] == tail;
    AbsentCharNotFound(tail, ':');
    assert p[..|head|] == head;
    assert PySplit(tail, ":") == [tail];
    assert PySplit(p, ":") == [head, tail];
  }

  /** How `uploadFile` ended: a response with its status, its `message`
      and, on success, the new submission's id; or an exception that
      escaped the handler's two catch clauses. */
  datatype UploadOutcome =
    | Responded(code: int, message: string, submissionId: Option<Uuid>)
    | Unhandled(exception: string)

  /** The checks before anything is stored, in the handler's order: the
      file name is present, the file is a zip, the token yields a user id,
      the user id is not empty, the assignment id is a UUID of a stored
      assignment. On success it gives the user id and the assignment. */
  function Validate(fileName: Option<string>, contentType: Option<string>, assignmentId: string,
                    userId: Result<string, TokenFault>, assignments: map<Uuid, Assignment>)
    : (r: Result<(string, Assignment), UploadOutcome>)
    ensures r.Ok? ==> && fileName.Some? && IsZipUpload(fileName.value, contentType)
                      && userId == Ok(r.value.0) && r.value.0 != ""
                      && ParseUuid(assignmentId).Some? && ParseUuid(assignmentId).value in assignments
                      && r.value.1 == assignments[ParseUuid(assignmentId).value]
    ensures fileName.None? ==> r == Err(Unhandled("NullPointerException"))
    ensures fileName.Some? && !IsZipUpload(fileName.value, contentType) ==> r == Err(Responded(BAD_REQUEST, BadFileTypeMessage, None))
    ensures fileName.Some? && IsZipUpload(fileName.value, contentType) && userId == Err(BadBase64) ==>
      r == Err(Responded(BAD_REQUEST, InvalidAssignmentMessage, None))
    ensures fileName.Some? && IsZipUpload(fileName.value, contentType) && userId.Err? && userId.error != BadBase64 ==>
      r.Err? && r.error.Unhandled?
    ensures fileName.Some? && IsZipUpload(fileName.value, contentType) && userId == Ok("") ==>
      r == Err(Responded(BAD_REQUEST, UserNotFoundMessage, None))
    ensures (&& fileName.Some? && IsZipUpload(fileName.value, contentType) && userId.Ok? && userId.value != ""
             && (ParseUuid(assignmentId).None? || ParseUuid(assignmentId).value !in assignments)) ==>
      r == Err(Responded(BAD_REQUEST, InvalidAssignmentMessage, None))
    ensures (&& fileName.Some? && IsZipUpload(fileName.value, contentType) && userId.Ok? && userId.value != ""
             && ParseUuid(assignmentId).Some? && ParseUuid(assignmentId).value in assignments) ==>
      r == Ok((userId.value, assignments[ParseUuid(assignmentId).value]))
    ensures r.Err? && r.error.Responded? ==> r.error.code == BAD_REQUEST && r.error.submissionId.None?
  {
    if fileName.None? then Err(Unhandled("NullPointerException"))
    else if !IsZipUpload(fileName.value, contentType) then Err(Responded(BAD_REQUEST, BadFileTypeMessage, None))
    else match userId
      case Err(BadBase64) => Err(Responded(BAD_REQUEST, InvalidAssignmentMessage, None))
      case Err(_) => Err(Unhandled("ArrayIndexOutOfBoundsException"))
      case Ok(uid) =>
        if uid == "" then Err(Responded(BAD_REQUEST, UserNotFoundMessage, None))
        else match ParseUuid(assignmentId)
          case None => Err(Responded(BAD_REQUEST, InvalidAssignmentMessage, None))
          case Some(id) =>
            if id !in assignments then Err(Responded(BAD_REQUEST, InvalidAssignmentMessage, None))
            else Ok((uid, assignments[id]))
  }

  class UploadController {
    const execution: Service
    /** Every submission passed to the submission repository's `save`. */
    var submissions: seq<Submission>
    /** The names of the archives stored by the upload service. */
    var storedFiles: seq<string>

    constructor (service: Service)
      ensures execution == service && submissions == [] && storedFiles == []
    {
      execution := service;
      submissions := [];
      storedFiles := [];
    }

    /** `uploadFile`. `stored` says whether storing the archive succeeded
        (it throws IOException otherwise); `newId` is the id the repository
        gives the submission, `now` the clock in milliseconds. */
    method UploadFile(fileName: Option<string>, contentType: Option<string>, assignmentId: string, token: string,
                      decode: string -> Option<string>, assignments: map<Uuid, Assignment>,
                      stored: bool, newId: Uuid, now: nat)
      returns (out: UploadOutcome)
      requires execution.Valid()
      requires forall j :: 0 <= j < |submissions| ==> submissions[j].id != newId
      modifies this, execution.queue
      ensures execution.Valid()
      ensures execution.queue.taken == old(execution.queue.taken)
      ensures var userId := ExtractUserIdSpec(token, decode);
        match Validate(fileName, contentType, assignmentId, userId, assignments)
        case Err(o) =>
          out == o && submissions == old(submissions) && storedFiles == old(storedFiles)
          && execution.queue.items == old(execution.queue.items)
        case Ok((uid, assignment)) =>
          if !stored then
            out == Responded(INTERNAL_SERVER_ERROR, UploadFailedMessage, None)
            && submissions == old(submissions) && storedFiles == old(storedFiles)
            && execution.queue.items == old(execution.queue.items)
          else
            var sub := Submission(newId, uid, fileName.value, assignment, Pending, None, None, None, NatToString(now));
            && storedFiles == old(storedFiles) + [fileName.value]
            && submissions == old(submissions) + [sub]
            && (if |old(execution.queue.items)| < Capacity then
                  out == Responded(OK, QueuedMessage, Some(newId))
                  && execution.queue.items == old(execution.queue.items) + [sub]
                else
                  out == Unhandled(QueueFullMessage) && execution.queue.items == old(execution.queue.items))
    {
      // The token is read only once the file has passed its checks; before
      // that `Validate` never looks at the user id.
      var userId: Result<string, TokenFault> := Err(MissingPayload);
      if fileName.Some? && IsZipUpload(fileName.value, contentType) {
        userId := ExtractUserId(token, decode);
      }
      var checked := Validate(fileName, contentType, assignmentId, userId, assignments);
      assert checked == Validate(fileName, contentType, assignmentId, ExtractUserIdSpec(token, decode), assignments);
      if checked.Err? {
        return checked.error;
      }
      var (uid, assignment) := checked.value;
      if !stored {
        return Responded(INTERNAL_SERVER_ERROR, UploadFailedMessage, None);
      }
      storedFiles := storedFiles + [fileName.value];
      var sub := Submission(newId, uid, fileName.value, assignment, Pending, None, None, None, NatToString(now));
      submissions := submissions + [sub];
      var added := execution.AddSubmission(sub);
      if added.Err? {
        return Unhandled(added.error);
      }
      return Responded(OK, QueuedMessage, Some(newId));
    }
  }

  /** The token reading of `extractUserID` as a function: the definition
      the loop of `ExtractUserId` is proved against, and the one the
      contract of `uploadFile` uses. */
  function ExtractUserIdSpec(token: string, decode: string -> Option<string>): Result<string, TokenFault>
  {
    var parts := JavaSplit(token, '.');
    if |parts| < 2 then Err(MissingPayload)
    else match decode(parts[1])
      case None => Err(BadBase64)
      case Some(payload) => UserIdOfPayload(payload)
  }
}
