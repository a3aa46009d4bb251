/** `TestCaseController`: creating, updating and deleting test cases. The
    request body is a JSON object; the test-case and assignment
    repositories are maps from id to record. Every exception inside create
    and update is caught and answered with 500. */
module TestCaseController {
  import opened Text
  import opened Entities

  /** The keys whose presence sets a text field of a test case. */
  const TextKeys: set<string> := {"input", "expectedOutput", "description"}

  /** `(String) body.get(key)`: `Some(None)` for a missing key or `null`,
      `None` where the cast throws. */
  function TextOf(body: map<string, JsonValue>, key: string): Option<Option<string>>
  {
    if key in body then CastString(body[key]) else Some(None)
  }

  /** The three conditional setters: each text field whose key the body
      holds takes that key's value; the others keep theirs. `None` when a
      present value is not text (the cast throws). */
  function SetTextFields(tc: TestCase, body: map<string, JsonValue>): (r: Option<TestCase>)
    ensures r.Some? <==> forall key :: key in TextKeys && key in body ==> CastString(body[key]).Some?
    ensures r.Some? ==> r.value.id == tc.id && r.value.assignmentId == tc.assignmentId
    ensures r.Some? ==> r.value.input == (if "input" in body then CastString(body["input"]).value else tc.input)
    ensures r.Some? ==>
      r.value.expectedOutput == (if "expectedOutput" in body then CastString(body["expectedOutput"]).value else tc.expectedOutput)
    ensures r.Some? ==>
      r.value.description == (if "description" in body then CastString(body["description"]).value else tc.description)
  {
    var input := if "input" in body then CastString(body["input"]) else Some(tc.input);
    var expected := if "expectedOutput" in body then CastString(body["expectedOutput"]) else Some(tc.expectedOutput);
    var description := if "description" in body then CastString(body["description"]) else Some(tc.description);
    if input.None? || expected.None? || description.None? then None
    else Some(tc.(input := input.value, expectedOutput := expected.value, description := description.value))
  }

  /** A body without any of the three keys leaves the test case as it is. */
  lemma NoTextKeysNoChange(tc: TestCase, body: map<string, JsonValue>)
    requires forall key :: key in TextKeys ==> key !in body
    ensures SetTextFields(tc, body) == Some(tc)
  {
    assert "input" !in body && "expectedOutput" !in body && "description" !in body;
  }

  class TestCaseStore {
    var testCases: map<Uuid, TestCase>
    const assignments: map<Uuid, Assignment>

    /** Every test case belongs to a stored assignment (the assignment
        column is not nullable and references an assignment). */
    predicate Valid()
      reads this
    {
      forall id :: id in testCases ==> testCases[id].assignmentId in assignments
    }

    constructor (cases: map<Uuid, TestCase>, stored: map<Uuid, Assignment>)
      requires forall id :: id in cases ==> cases[id].assignmentId in stored
      ensures testCases == cases && assignments == stored && Valid()
    {
      testCases := cases;
      assignments := stored;
    }

    /** `createTestCase`: 400 without an assignment id, 404 for an
        unknown assignment, 500 for an id that is not UUID text or a value
        that is not text; otherwise a test case of that assignment with the
        body's text fields is saved under `newId` and answered with 201.
        Nothing is saved on any other path. */
    method CreateTestCase(body: map<string, JsonValue>, newId: Uuid) returns (code: int, saved: Option<TestCase>)
      requires Valid()
      requires newId !in testCases
      modifies this
      ensures Valid()
      ensures code != CREATED ==> testCases == old(testCases) && saved.None?
      ensures code in {CREATED, BAD_REQUEST, NOT_FOUND, INTERNAL_SERVER_ERROR}
      ensures TextOf(body, "assignmentId").None? ==> code == INTERNAL_SERVER_ERROR
      ensures TextOf(body, "assignmentId") == Some(None) ==> code == BAD_REQUEST
      ensures TextOf(body, "assignmentId").Some? && TextOf(body, "assignmentId").value.Some? ==>
        var text := TextOf(body, "assignmentId").value.value;
        match ParseUuid(text)
        case None => code == INTERNAL_SERVER_ERROR
        case Some(aid) =>
          if aid !in assignments then code == NOT_FOUND
          else match SetTextFields(TestCase(newId, aid, None, None, None), body)
            case None => code == INTERNAL_SERVER_ERROR
            case Some(tc) => code == CREATED && saved == Some(tc) && testCases == old(testCases)[newId := tc]
    {
      var assignmentId := TextOf(body, "assignmentId");
      if assignmentId.None? {
        return INTERNAL_SERVER_ERROR, None;
      }
      if assignmentId.value.None? {
        return BAD_REQUEST, None;
      }
      var aid := ParseUuid(assignmentId.value.value);
      if aid.None? {
        return INTERNAL_SERVER_ERROR, None;
      }
      if aid.value !in assignments {
        return NOT_FOUND, None;
      }
      var tc := SetTextFields(TestCase(newId, aid.value, None, None, None), body);
      if tc.None? {
        return INTERNAL_SERVER_ERROR, None;
      }
      testCases := testCases[newId := tc.value];
      return CREATED, tc;
    }

    /** `updateTestCase`: 404 for an unknown test case; the text fields of
        the keys present are set (500 if one is not text); when the body
        names an assignment it must be UUID text (500 otherwise) of a
        stored assignment (404 otherwise), which the test case then
        belongs to. The result is saved and answered with 200; nothing is
        saved on any other path. */
    method UpdateTestCase(id: Uuid, body: map<string, JsonValue>) returns (code: int, saved: Option<TestCase>)
      requires Valid()
      modifies this
      ensures Valid()
      ensures code != OK ==> testCases == old(testCases) && saved.None?
      ensures id !in old(testCases) ==> code == NOT_FOUND
      ensures id in old(testCases) ==>
        match SetTextFields(old(testCases)[id], body)
        case None => code == INTERNAL_SERVER_ERROR
        case Some(tc) =>
          if "assignmentId" !in body then code == OK && saved == Some(tc) && testCases == old(testCases)[id := tc]
          else match CastString(body["assignmentId"])
            case None => code == INTERNAL_SERVER_ERROR
            case Some(None) => code == INTERNAL_SERVER_ERROR
            case Some(Some(text)) =>
              match ParseUuid(text)
              case None => code == INTERNAL_SERVER_ERROR
              case Some(aid) =>
                if aid !in assignments then code == NOT_FOUND
                else code == OK && saved == Some(tc.(assignmentId := aid))
                     && testCases == old(testCases)[id := tc.(assignmentId := aid)]
    {
      if id !in testCases {
        return NOT_FOUND, None;
      }
      var tc := SetTextFields(testCases[id], body);
      if tc.None? {
        return INTERNAL_SERVER_ERROR, None;
      }
      var updated := tc.value;
      if "assignmentId" in body {
        var text := CastString(body["assignmentId"]);
        if text.None? || text.value.None? {
          return INTERNAL_SERVER_ERROR, None;
        }
        var aid := ParseUuid(text.value.value);
        if aid.None? {
          return INTERNAL_SERVER_ERROR, None;
        }
        if aid.value !in assignments {
          return NOT_FOUND, None;
        }
        updated := updated.(assignmentId := aid.value);
      }
      testCases := testCases[id := updated];
      return OK, Some(updated);
    }

    /** `deleteTestCase`: 404 when absent; otherwise removed and 204. */
    method DeleteTestCase(id: Uuid) returns (code: int)
      requires Valid()
      modifies this
      ensures Valid()
      ensures id in old(testCases) ==> code == NO_CONTENT && testCases == old(testCases) - {id}
      ensures id !in old(testCases) ==> code == NOT_FOUND && testCases == old(testCases)
    {
      if id !in testCases {
        return NOT_FOUND;
      }
      testCases := testCases - {id};
      return NO_CONTENT;
    }
  }
}
