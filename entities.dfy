/** The records the core reads and writes (`Submissions`, `Assignment`,
    `TestCase`, `Group`, `UserGroup`, `SubmissionReviews`), the submission
    status values, the JSON values of request bodies, the HTTP status codes
    the controllers answer with, and the text form of a UUID. A Java field
    that may hold `null` is an `Option`. */
module Entities {
  import opened Text

  /** A UUID in the canonical lower-case text form `UUID.toString` prints. */
  type Uuid = string

  predicate IsLowerHex(c: char)
  {
    ('0' <= c <= '9') || ('a' <= c <= 'f')
  }

  predicate IsDashPosition(i: int)
  {
    i == 8 || i == 13 || i == 18 || i == 23
  }

  /** Canonical UUID text: 36 characters, dashes at 8, 13, 18 and 23,
      lower-case hexadecimal digits everywhere else. */
  predicate IsUuid(s: string)
  {
    && |s| == 36
    && (forall i :: 0 <= i < 36 && IsDashPosition(i) ==> s[i] == '-')
    && (forall i :: 0 <= i < 36 && !IsDashPosition(i) ==> IsLowerHex(s[i]))
  }

  /** `UUID.fromString(s)` followed by `toString()`: accepts hexadecimal
      digits of either case in the canonical layout and yields the
      lower-case form; any other text is rejected (the Java call throws
      IllegalArgumentException). */
  function ParseUuid(s: string): (r: Option<Uuid>)
    ensures r.Some? ==> IsUuid(r.value)
    ensures IsUuid(s) ==> r == Some(s)
  {
    var t := ToLowerAscii(s);
    assert IsUuid(s) ==> t == s by {
      if IsUuid(s) {
        forall i | 0 <= i < |s|
          ensures t[i] == s[i]
        {
          assert IsDashPosition(i) || IsLowerHex(s[i]);
        }
      }
    }
    if IsUuid(t) then Some(t) else None
  }

  /** The four values `Submissions.status` takes in the pipeline. */
  datatype Status = Pending | Running | Completed | Failed

  /** The text stored in the `status` column. */
  function StatusName(s: Status): string
  {
    match s
    case Pending => "Pending"
    case Running => "Running"
    case Completed => "Completed"
    case Failed => "Failed"
  }

  /** Forward moves of the status: Pending to Running, Running to one of
      the two terminal values. */
  predicate StatusStep(a: Status, b: Status)
  {
    (a == Pending && b == Running) || (a == Running && (b == Completed || b == Failed))
  }

  /** An `Assignment` row. `group` is held by its id; `dueDate` keeps the
      text it was set from. */
  datatype Assignment = Assignment(
    id: Uuid,
    title: Option<string>,
    description: Option<string>,
    groupId: Option<Uuid>,
    dueDate: Option<string>,
    createdAt: string,
    timeLimit: Option<real>,
    memoryLimit: Option<int>,
    maxScore: Option<int>,
    gradeWeight: Option<int>)

  /** A `Submissions` row. */
  datatype Submission = Submission(
    id: Uuid,
    userId: string,
    fileName: string,
    assignment: Assignment,
    status: Status,
    output: Option<string>,
    lintOutput: Option<string>,
    aiOutput: Option<string>,
    timestamp: string)

  /** A `TestCase` row; the owning assignment is held by its id. */
  datatype TestCase = TestCase(
    id: Uuid,
    assignmentId: Uuid,
    input: Option<string>,
    expectedOutput: Option<string>,
    description: Option<string>)

  /** A `Group` row. */
  datatype Group = Group(
    id: Uuid,
    name: string,
    owner: string,
    description: Option<string>,
    coverImg: Option<string>,
    archived: bool)

  /** `findById` over the group table in storage order: the position of
      the first group with this id, or -1. */
  function GroupIndex(groups: seq<Group>, id: Uuid): (k: int)
    ensures -1 <= k < |groups|
    ensures k >= 0 ==> groups[k].id == id
    ensures forall j :: 0 <= j < |groups| && (k == -1 || j < k) ==> groups[j].id != id
  {
    if groups == [] then -1
    else
      var k := GroupIndex(groups[..|groups| - 1], id);
      if k >= 0 then k else if groups[|groups| - 1].id == id then |groups| - 1 else -1
  }

  /** A `UserGroup` row (group membership); the group is held by its id. */
  datatype UserGroup = UserGroup(id: Uuid, userId: string, groupId: Uuid, role: string)

  /** A `SubmissionReviews` row; `submissionId` is free text. */
  datatype SubmissionReview = SubmissionReview(
    id: Uuid,
    submissionId: string,
    reviewerId: string,
    status: string,
    createdAt: string)

  /** A JSON value as Jackson hands it to a controller inside a
      `Map<String, Object>`: integers that fit 32 bits become `Integer`,
      larger ones `Long`, numbers with a fraction `Double`. */
  datatype JsonValue =
    | JNull
    | JBool(b: bool)
    | JInt(i: int)
    | JReal(r: real)
    | JString(s: string)
    | JArray(items: seq<JsonValue>)
    | JObject(fields: map<string, JsonValue>)

  const IntMin: int := -0x8000_0000
  const IntMax: int := 0x7fff_ffff

  /** The Java cast `(String) v`: `null` stays `null`, a string passes, and
      anything else throws ClassCastException (`None`). */
  function CastString(v: JsonValue): Option<Option<string>>
  {
    match v
    case JNull => Some(None)
    case JString(s) => Some(Some(s))
    case _ => None
  }

  /** The Java cast `(Integer) v`, with the same conventions. */
  function CastInteger(v: JsonValue): Option<Option<int>>
  {
    match v
    case JNull => Some(None)
    case JInt(i) => if IntMin <= i <= IntMax then Some(Some(i)) else None
    case _ => None
  }

  /** `((Number) v).floatValue()`: a number passes, `null` throws
      NullPointerException and anything else ClassCastException. */
  function NumberValue(v: JsonValue): Option<real>
  {
    match v
    case JInt(i) => Some(i as real)
    case JReal(r) => Some(r)
    case _ => None
  }

  /** HTTP status codes the controllers answer with. */
  const OK: int := 200
  const CREATED: int := 201
  const NO_CONTENT: int := 204
  const BAD_REQUEST: int := 400
  const NOT_FOUND: int := 404
  const INTERNAL_SERVER_ERROR: int := 500
}
