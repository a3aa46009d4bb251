/** `AssignmentController`: the latest-submissions listing, the analysis
    of a subset of submissions, the partial update of an assignment and its
    deletion. The repository query for the latest submission of each user
    is an input; the assignment repository is a map from id to record. */
module AssignmentController {
  import opened Text
  import opened Entities
  import opened TimestampOrder
  import opened AIConfigurationService
  import opened AIAnalysisService

  /** `getLatestSubmissionsPerUser`: an empty result answers 204 and is
      left alone; otherwise the list is sorted newest first in place and
      answered with 200. */
  method LatestSubmissionsPerUser(latest: array<Submission>) returns (code: int)
    modifies latest
    ensures code == NO_CONTENT <==> latest.Length == 0
    ensures code == NO_CONTENT || code == OK
    ensures NewestFirst(latest[..])
    ensures multiset(latest[..]) == multiset(old(latest[..]))
  {
    if latest.Length == 0 {
      return NO_CONTENT;
    }
    SortNewestFirst(latest);
    return OK;
  }

  // ---------------------------------------------------------------------
  // analyzeSubmissionsSubset
  // ---------------------------------------------------------------------

  const NotEnoughMessage: string := "Not enough submissions to analyze"

  /** How many submissions are analysed out of `n`: a tenth (rounded
      down), but at least two. With at least two submissions the subset
      fits in the list. */
  function SubsetSize(n: int): (k: int)
    ensures k >= 2 && k >= n / 10
    ensures k == 2 || k == n / 10
    ensures n >= 2 ==> k <= n
  {
    if n / 10 > 2 then n / 10 else 2
  }

  /** The fixed instructions that open the analysis prompt. */
  const PromptHeader: string :=
    "You are an expert code reviewer analyzing student submissions. Focus on identifying patterns and common issues across the submissions.\n\n"
    + "For each submission, analyze:\n"
    + "1. Code structure and organization\n"
    + "2. Algorithm implementation\n"
    + "3. Error handling\n"
    + "4. Code style and readability\n\n"
    + "Provide a concise summary in this format:\n\n"
    + "COMMON ISSUES:\n"
    + "- List the 3-5 most frequent issues found across submissions\n"
    + "- For each issue, briefly explain why it's problematic\n\n"
    + "OVERALL FEEDBACK:\n"
    + "- 2-3 key points about the general quality of submissions\n"
    + "- 1-2 specific suggestions for improvement\n\n"
    + "Submissions to analyze:\n\n"

  /** The block one submission adds: its user and its AI output (`null`
      when it has none). */
  function SubmissionBlock(s: Submission): string
  {
    "Submission from user " + s.userId + ":\n" + Shown(s.aiOutput) + "\n\n"
  }

  /** The blocks of all submissions, in order. */
  function SubmissionBlocks(subs: seq<Submission>): string
  {
    ConcatMap(SubmissionBlock, subs)
  }

  /** The blocks of two runs of submissions are the blocks of each, one
      after the other. */
  lemma SubmissionBlocksAppend(a: seq<Submission>, b: seq<Submission>)
    ensures SubmissionBlocks(a + b) == SubmissionBlocks(a) + SubmissionBlocks(b)
  {
    ConcatMapAppend(SubmissionBlock, a, b);
  }

  /** The block of the `i`-th submission sits between the blocks of the
      submissions before it and those after it: the prompt lists every
      submission once, in order. */
  lemma SubmissionBlockAt(subs: seq<Submission>, i: int)
    requires 0 <= i < |subs|
    ensures SubmissionBlocks(subs)
         == SubmissionBlocks(subs[..i]) + SubmissionBlock(subs[i]) + SubmissionBlocks(subs[i + 1..])
  {
    ConcatMapAt(SubmissionBlock, subs, i);
  }

  /** The prompt-building loop: the header, then one block per submission
      of the subset. */
  method BuildSubsetPrompt(subset: seq<Submission>) returns (prompt: string)
    ensures prompt == PromptHeader + SubmissionBlocks(subset)
  {
    prompt := PromptHeader;
    var i := 0;
    while i < |subset|
      invariant 0 <= i <= |subset|
      invariant prompt == PromptHeader + SubmissionBlocks(subset[..i])
    {
      PromptStep(PromptHeader, subset, i);
      prompt := prompt + SubmissionBlock(subset[i]);
      i := i + 1;
    }
    assert subset[..|subset|] == subset;
  }

  /** Appending the next submission's block to a prompt built from the
      ones before it. */
  lemma PromptStep(header: string, subs: seq<Submission>, i: int)
    requires 0 <= i < |subs|
    ensures header + SubmissionBlocks(subs[..i]) + SubmissionBlock(subs[i]) == header + SubmissionBlocks(subs[..i + 1])
  {
    PrefixSnoc(subs, i);
    ConcatMapLast(SubmissionBlock, subs[..i], subs[i]);
    Regroup(header, SubmissionBlocks(subs[..i]), SubmissionBlock(subs[i]));
  }

  /** A response: its status and its body (`None` for an empty body or a
      `null` one). */
  datatype Reply = Reply(code: int, body: Option<string>)

  /** `analyzeSubmissionsSubset` over the latest submission of each user,
      in repository order. `prompt` is the text handed to the analysis
      service, `None` when no analysis is asked for. */
  method AnalyzeSubmissionsSubset(all: seq<Submission>, configs: seq<AIConfiguration>,
                                  llm: string -> Exchange, faultMessage: Option<string>)
    returns (reply: Reply, prompt: Option<string>)
    ensures |all| < 2 <==> prompt.None?
    ensures |all| == 0 ==> reply == Reply(NO_CONTENT, None)
    ensures |all| == 1 ==> reply == Reply(NO_CONTENT, Some(NotEnoughMessage))
    ensures |all| >= 2 ==>
      var k := SubsetSize(|all|);
      && 2 <= k <= |all|
      && prompt == Some(PromptHeader + SubmissionBlocks(all[..k]))
      && reply == Reply(OK, AnalyzeSubmissionText(configs, prompt.value, llm, faultMessage))
  {
    if |all| == 0 {
      return Reply(NO_CONTENT, None), None;
    }
    if |all| < 2 {
      return Reply(NO_CONTENT, Some(NotEnoughMessage)), None;
    }
    var k := SubsetSize(|all|);
    var text := BuildSubsetPrompt(all[..k]);
    var analysis := AnalyzeSubmissionText(configs, text, llm, faultMessage);
    return Reply(OK, analysis), Some(text);
  }

  // ---------------------------------------------------------------------
  // updateAssignment
  // ---------------------------------------------------------------------

  /** The keys the update recognises; any other key is ignored. */
  const RecognisedKeys: set<string> :=
    {"title", "description", "group", "dueDate", "timeLimit", "memoryLimit", "maxScore", "gradeWeight"}

  /** `UUID.fromString((String) ((Map) value).get("id"))`: the value must
      be an object whose `id` is UUID text; a missing or `null` id, a
      non-object and malformed text all throw. */
  function GroupIdOf(value: JsonValue): (r: Option<Uuid>)
    ensures r.Some? ==> IsUuid(r.value)
    ensures r.Some? ==> value.JObject? && "id" in value.fields && value.fields["id"].JString?
  {
    if value.JObject? && "id" in value.fields && value.fields["id"].JString? then ParseUuid(value.fields["id"].s)
    else None
  }

  /** `a` and `b` agree on every field but those `keys` name; the id and
      the creation time agree always. */
  predicate AgreeExcept(a: Assignment, b: Assignment, keys: set<string>)
  {
    && a.id == b.id && a.createdAt == b.createdAt
    && ("title" in keys || a.title == b.title)
    && ("description" in keys || a.description == b.description)
    && ("group" in keys || a.groupId == b.groupId)
    && ("dueDate" in keys || a.dueDate == b.dueDate)
    && ("timeLimit" in keys || a.timeLimit == b.timeLimit)
    && ("memoryLimit" in keys || a.memoryLimit == b.memoryLimit)
    && ("maxScore" in keys || a.maxScore == b.maxScore)
    && ("gradeWeight" in keys || a.gradeWeight == b.gradeWeight)
  }

  /** One `case` of the `switch`: set the field `key` names from `value`,
      or `None` where the cast or the conversion throws. `isTimestamp`
      says which texts `Timestamp.valueOf` accepts. */
  function ApplyEntry(a: Assignment, key: string, value: JsonValue, isTimestamp: string -> bool): (r: Option<Assignment>)
    ensures key !in RecognisedKeys ==> r == Some(a)
    ensures r.Some? ==> AgreeExcept(a, r.value, {key})
    ensures key == "title" ==> (r.None? <==> CastString(value).None?)
    ensures key == "title" && r.Some? ==> Some(r.value.title) == CastString(value)
    ensures key == "description" ==> (r.None? <==> CastString(value).None?)
    ensures key == "description" && r.Some? ==> Some(r.value.description) == CastString(value)
    ensures key == "group" ==> (r.None? <==> GroupIdOf(value).None?)
    ensures key == "group" && r.Some? ==> r.value.groupId == GroupIdOf(value)
    ensures key == "dueDate" ==> (r.Some? <==> value.JString? && isTimestamp(value.s))
    ensures key == "dueDate" && r.Some? ==> r.value.dueDate == Some(value.s)
    ensures key == "timeLimit" ==> (r.None? <==> NumberValue(value).None?)
    ensures key == "timeLimit" && r.Some? ==> r.value.timeLimit == NumberValue(value)
    ensures key == "memoryLimit" ==> (r.None? <==> CastInteger(value).None?)
    ensures key == "memoryLimit" && r.Some? ==> Some(r.value.memoryLimit) == CastInteger(value)
    ensures key == "maxScore" ==> (r.None? <==> CastInteger(value).None?)
    ensures key == "maxScore" && r.Some? ==> Some(r.value.maxScore) == CastInteger(value)
    ensures key == "gradeWeight" ==> (r.None? <==> CastInteger(value).None?)
    ensures key == "gradeWeight" && r.Some? ==> Some(r.value.gradeWeight) == CastInteger(value)
  {
    if key == "title" then
      match CastString(value)
      case None => None
      case Some(t) => Some(a.(title := t))
    else if key == "description" then
      match CastString(value)
      case None => None
      case Some(t) => Some(a.(description := t))
    else if key == "group" then
      match GroupIdOf(value)
      case None => None
      case Some(g) => Some(a.(groupId := Some(g)))
    else if key == "dueDate" then
      if value.JString? && isTimestamp(value.s) then Some(a.(dueDate := Some(value.s))) else None
    else if key == "timeLimit" then
      match NumberValue(value)
      case None => None
      case Some(t) => Some(a.(timeLimit := Some(t)))
    else if key == "memoryLimit" then
      match CastInteger(value)
      case None => None
      case Some(m) => Some(a.(memoryLimit := m))
    else if key == "maxScore" then
      match CastInteger(value)
      case None => None
      case Some(m) => Some(a.(maxScore := m))
    else if key == "gradeWeight" then
      match CastInteger(value)
      case None => None
      case Some(m) => Some(a.(gradeWeight := m))
    else Some(a)
  }

  /** The request body's entries applied in order; `None` once one throws. */
  function ApplyUpdates(a: Assignment, entries: seq<(string, JsonValue)>, isTimestamp: string -> bool): Option<Assignment>
  {
    if entries == [] then Some(a)
    else
      var last := entries[|entries| - 1];
      match ApplyUpdates(a, entries[..|entries| - 1], isTimestamp)
      case None => None
      case Some(b) => ApplyEntry(b, last.0, last.1, isTimestamp)
  }

  /** The keys of the request body. */
  function KeysOf(entries: seq<(string, JsonValue)>): set<string>
  {
    set k | 0 <= k < |entries| :: entries[k].0
  }

  /** No key is repeated (the body is a JSON object). */
  predicate DistinctKeys(entries: seq<(string, JsonValue)>)
  {
    forall i, j :: 0 <= i < j < |entries| ==> entries[i].0 != entries[j].0
  }

  /** An update changes only the fields whose keys the body holds. */
  lemma {:induction false} UpdateTouchesOnlyPresentKeys(a: Assignment, entries: seq<(string, JsonValue)>,
                                                        isTimestamp: string -> bool)
    requires ApplyUpdates(a, entries, isTimestamp).Some?
    ensures AgreeExcept(a, ApplyUpdates(a, entries, isTimestamp).value, KeysOf(entries))
    decreases |entries|
  {
    if entries != [] {
      var init := entries[..|entries| - 1];
      UpdateTouchesOnlyPresentKeys(a, init, isTimestamp);
      assert KeysOf(entries) == KeysOf(init) + {entries[|entries| - 1].0} by {
        forall key | key in KeysOf(entries) ensures key in KeysOf(init) + {entries[|entries| - 1].0} {
          var k :| 0 <= k < |entries| && entries[k].0 == key;
          if k < |entries| - 1 {
            assert init[k].0 == key;
          }
        }
        forall key | key in KeysOf(init) ensures key in KeysOf(entries) {
          var k :| 0 <= k < |init| && init[k].0 == key;
          assert entries[k].0 == key;
        }
      }
    }
  }

  /** Setting a field a second time with the same value changes nothing. */
  lemma ApplyEntryAgain(a: Assignment, key: string, value: JsonValue, isTimestamp: string -> bool)
    requires ApplyEntry(a, key, value, isTimestamp).Some?
    ensures var b := ApplyEntry(a, key, value, isTimestamp).value;
      ApplyEntry(b, key, value, isTimestamp) == Some(b)
  {
  }

  /** An entry a record already carries is still carried after another
      key's field changes. */
  lemma ApplyEntryOther(a: Assignment, b: Assignment, key: string, other: string, value: JsonValue,
                        isTimestamp: string -> bool)
    requires key != other
    requires ApplyEntry(a, key, value, isTimestamp) == Some(a)
    requires AgreeExcept(a, b, {other})
    ensures ApplyEntry(b, key, value, isTimestamp) == Some(b)
  {
  }

  /** After a successful update every entry of the body is carried by the
      result: applying any one of them again changes nothing, so each
      named field holds the value its entry gave it. */
  lemma {:induction false} UpdateCarriesEveryEntry(a: Assignment, entries: seq<(string, JsonValue)>,
                                                   isTimestamp: string -> bool, k: int)
    requires DistinctKeys(entries)
    requires ApplyUpdates(a, entries, isTimestamp).Some?
    requires 0 <= k < |entries|
    ensures var b := ApplyUpdates(a, entries, isTimestamp).value;
      ApplyEntry(b, entries[k].0, entries[k].1, isTimestamp) == Some(b)
    decreases |entries|
  {
    var n := |entries| - 1;
    var init, last := entries[..n], entries[n];
    var mid := ApplyUpdates(a, init, isTimestamp).value;
    var b := ApplyUpdates(a, entries, isTimestamp).value;
    if k == n {
      ApplyEntryAgain(mid, last.0, last.1, isTimestamp);
    } else {
      assert init[k] == entries[k];
      UpdateCarriesEveryEntry(a, init, isTimestamp, k);
      ApplyEntryOther(mid, b, entries[k].0, last.0, entries[k].1, isTimestamp);
    }
  }

  /** The assignment repository and the handlers that change it. */
  class AssignmentStore {
    var assignments: map<Uuid, Assignment>

    constructor (initial: map<Uuid, Assignment>)
      ensures assignments == initial
    {
      assignments := initial;
    }

    /** `updateAssignment`: 404 for an unknown id; otherwise the body's
        entries are applied one by one to the stored record, and the
        result is saved and answered with 200. An entry that throws ends
        the request with 500 and nothing saved. */
    method UpdateAssignment(id: Uuid, entries: seq<(string, JsonValue)>, isTimestamp: string -> bool)
      returns (code: int, body: Option<Assignment>)
      modifies this
      ensures id !in old(assignments) ==> code == NOT_FOUND && body.None? && assignments == old(assignments)
      ensures id in old(assignments) ==>
        match ApplyUpdates(old(assignments)[id], entries, isTimestamp)
        case None => code == INTERNAL_SERVER_ERROR && body.None? && assignments == old(assignments)
        case Some(b) => code == OK && body == Some(b) && assignments == old(assignments)[id := b]
    {
      if id !in assignments {
        return NOT_FOUND, None;
      }
      var current := assignments[id];
      var i := 0;
      while i < |entries|
        invariant 0 <= i <= |entries|
        invariant ApplyUpdates(assignments[id], entries[..i], isTimestamp) == Some(current)
      {
        assert entries[..i + 1][..i] == entries[..i];
        var next := ApplyEntry(current, entries[i].0, entries[i].1, isTimestamp);
        if next.None? {
          assert ApplyUpdates(assignments[id], entries[..i + 1], isTimestamp).None?;
          NoneStays(assignments[id], entries, i + 1, isTimestamp);
          return INTERNAL_SERVER_ERROR, None;
        }
        current := next.value;
        i := i + 1;
      }
      assert entries[..|entries|] == entries;
      assignments := assignments[id := current];
      return OK, Some(current);
    }

    /** `deleteAssignment`: 204 and the record removed when it exists,
        404 and nothing changed otherwise. */
    method DeleteAssignment(id: Uuid) returns (code: int)
      modifies this
      ensures id in old(assignments) ==> code == NO_CONTENT && assignments == old(assignments) - {id}
      ensures id !in old(assignments) ==> code == NOT_FOUND && assignments == old(assignments)
    {
      if id in assignments {
        assignments := assignments - {id};
        return NO_CONTENT;
      }
      return NOT_FOUND;
    }
  }

  /** Once an entry throws, the whole update has thrown. */
  lemma {:induction false} NoneStays(a: Assignment, entries: seq<(string, JsonValue)>, i: int, isTimestamp: string -> bool)
    requires 0 <= i <= |entries|
    requires ApplyUpdates(a, entries[..i], isTimestamp).None?
    ensures ApplyUpdates(a, entries, isTimestamp).None?
    decreases |entries| - i
  {
    if i < |entries| {
      assert entries[..i + 1][..i] == entries[..i];
      NoneStays(a, entries, i + 1, isTimestamp);
    } else {
      assert entries[..i] == entries;
    }
  }
}
