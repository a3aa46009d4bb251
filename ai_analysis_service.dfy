/** `AIAnalysisService`: gathers the code files of a project directory into
    a prompt, or takes a ready prompt, sends it to the language model of the
    active configuration and returns the reply text. The file system walk
    and the HTTP exchange are inputs; the guards, the file filter, the
    prompt text and the reading of the reply are modelled. */
module AIAnalysisService {
  import opened Text
  import opened Entities
  import opened AIConfigurationService

  const CodeExtensions: seq<string> := [".java", ".py", ".js", ".jsx", ".ts", ".tsx", ".html", ".css"]

  /** The text ends with one of the eight code extensions. */
  predicate HasCodeExtension(text: string)
  {
    exists k :: 0 <= k < |CodeExtensions| && EndsWith(text, CodeExtensions[k])
  }

  /** `isCodeFile`: the lower-cased path ends with one of the eight code
      extensions. Lower-casing only ASCII letters is exact here: no other
      character lower-cases to a character of these extensions. A code file
      has a `.` in its name and at least three characters. */
  function IsCodeFile(path: string): (r: bool)
    ensures r ==> |path| >= 3 && '.' in path
  {
    var l := ToLowerAscii(path);
    assert HasCodeExtension(l) ==> |path| >= 3 && '.' in path by {
      if HasCodeExtension(l) {
        var k :| 0 <= k < |CodeExtensions| && EndsWith(l, CodeExtensions[k]);
        ExtensionsShape(k);
        DottedSuffix(path, l, CodeExtensions[k]);
      }
    }
    HasCodeExtension(l)
  }

  /** Every code extension is a `.` and at least two more characters. */
  lemma ExtensionsShape(k: int)
    requires 0 <= k < |CodeExtensions|
    ensures |CodeExtensions[k]| >= 3 && CodeExtensions[k][0] == '.'
  {
  }

  /** A path whose lower-cased form `lower` ends with a suffix starting
      with `.` holds that `.` itself. */
  lemma DottedSuffix(path: string, lower: string, ext: string)
    requires |lower| == |path| && forall i :: 0 <= i < |path| ==> lower[i] == ToLowerChar(path[i])
    requires |ext| >= 1 && ext[0] == '.'
    requires EndsWith(lower, ext)
    ensures |path| >= |ext| && '.' in path
  {
    var n := |lower| - |ext|;
    assert lower[n] == lower[n..][0] == ext[0];
    LowerDot(path[n]);
  }

  /** Only `.` lower-cases to `.`. */
  lemma LowerDot(c: char)
    requires ToLowerChar(c) == '.'
    ensures c == '.'
  {
  }

  /** Upper or lower case in the path makes no difference. */
  lemma {:induction false} LowerIdempotent(s: string)
    ensures ToLowerAscii(ToLowerAscii(s)) == ToLowerAscii(s)
  {
    var t := ToLowerAscii(s);
    assert forall i :: 0 <= i < |t| ==> ToLowerChar(t[i]) == t[i];
  }

  /** Whether a path is a code file does not depend on the case of its
      letters. */
  lemma IsCodeFileIgnoresCase(path: string)
    ensures IsCodeFile(path) <==> IsCodeFile(ToLowerAscii(path))
  {
    LowerIdempotent(path);
  }

  /** Lower-casing works piece by piece. */
  lemma ToLowerAppend(a: string, b: string)
    ensures ToLowerAscii(a + b) == ToLowerAscii(a) + ToLowerAscii(b)
  {
    var la, lb := ToLowerAscii(a), ToLowerAscii(b);
    var l, r := ToLowerAscii(a + b), la + lb;
    assert |l| == |r|;
    forall i | 0 <= i < |l|
      ensures l[i] == r[i]
    {
      if i < |a| {
        assert (a + b)[i] == a[i];
        assert r[i] == la[i];
      } else {
        assert (a + b)[i] == b[i - |a|];
        assert r[i] == lb[i - |a|];
      }
    }
    assert l == r;
  }

  /** Any path that ends in one of the extensions, in any case, is a code
      file. */
  lemma StemWithExtension(stem: string, ext: string, k: int)
    requires 0 <= k < |CodeExtensions| && ToLowerAscii(ext) == CodeExtensions[k]
    ensures IsCodeFile(stem + ext)
  {
    ToLowerAppend(stem, ext);
    var l := ToLowerAscii(stem + ext);
    assert l[|l| - |ext|..] == CodeExtensions[k];
  }

  /** A file the analysis reads: its path relative to the project and its
      text. */
  datatype FileContent = FileContent(path: string, content: string)

  /** One path that `Files.walk` visits: the full path (which the code-file
      test looks at), the path relative to the project directory, whether
      it is a regular file, and its text (`None` when reading it fails,
      which is logged and skipped). */
  datatype WalkEntry = WalkEntry(fullPath: string, relativePath: string, regular: bool, content: Option<string>)

  /** What the file system holds at the project path. `WalkFailed` is an
      exception while walking the directory. */
  datatype ProjectPath =
    | Missing
    | NotDirectory
    | Directory(entries: seq<WalkEntry>)
    | WalkFailed(message: Option<string>)

  /** The code files `readProjectFiles` collects, in walk order. */
  function CodeFiles(entries: seq<WalkEntry>): (r: seq<FileContent>)
    ensures |r| <= |entries|
    ensures forall f :: f in r ==>
      exists e :: e in entries && e.regular && IsCodeFile(e.fullPath) && e.content == Some(f.content) && e.relativePath == f.path
    ensures forall e :: e in entries && e.regular && IsCodeFile(e.fullPath) && e.content.Some? ==>
      FileContent(e.relativePath, e.content.value) in r
  {
    if entries == [] then []
    else
      var init := CodeFiles(entries[..|entries| - 1]);
      var e := entries[|entries| - 1];
      if e.regular && IsCodeFile(e.fullPath) && e.content.Some? then init + [FileContent(e.relativePath, e.content.value)] else init
  }

  /** The walk is read in order: the files of two runs of entries are the
      files of each in turn. */
  lemma {:induction false} CodeFilesAppend(a: seq<WalkEntry>, b: seq<WalkEntry>)
    ensures CodeFiles(a + b) == CodeFiles(a) + CodeFiles(b)
    decreases |b|
  {
    if b == [] {
      assert a + b == a;
    } else {
      var b', e := b[..|b| - 1], b[|b| - 1];
      assert (a + b)[..|a + b| - 1] == a + b';
      assert (a + b)[|a + b| - 1] == e;
      CodeFilesAppend(a, b');
      var tail := if e.regular && IsCodeFile(e.fullPath) && e.content.Some? then [FileContent(e.relativePath, e.content.value)] else [];
      assert CodeFiles(a + b) == CodeFiles(a + b') + tail;
      assert CodeFiles(b) == CodeFiles(b') + tail;
      Regroup(CodeFiles(a), CodeFiles(b'), tail);
    }
  }

  /** One more entry of the walk adds its file when it is a readable
      regular code file, and nothing otherwise. */
  lemma CodeFilesStep(entries: seq<WalkEntry>, i: int)
    requires 0 <= i < |entries|
    ensures var e := entries[i];
      CodeFiles(entries[..i + 1])
        == CodeFiles(entries[..i]) + if e.regular && IsCodeFile(e.fullPath) && e.content.Some?
                                     then [FileContent(e.relativePath, e.content.value)] else []
  {
    assert entries[..i + 1][..i] == entries[..i];
  }

  /** `readProjectFiles` on a directory: filter the walk to regular code
      files and read each. */
  method ReadProjectFiles(entries: seq<WalkEntry>) returns (files: seq<FileContent>)
    ensures files == CodeFiles(entries)
  {
    files := [];
    var i := 0;
    while i < |entries|
      invariant 0 <= i <= |entries|
      invariant files == CodeFiles(entries[..i])
    {
      CodeFilesStep(entries, i);
      var e := entries[i];
      if e.regular && IsCodeFile(e.fullPath) {
        match e.content {
          case Some(text) =>
            files := files + [FileContent(e.relativePath, text)];
          case None =>
        }
      }
      i := i + 1;
    }
    assert entries[..|entries|] == entries;
  }

  /** Java's string conversion of a possibly-null string. */
  function Shown(s: Option<string>): string
  {
    match s
    case Some(t) => t
    case None => "null"
  }

  /** The block one file adds to the prompt. */
  function FileBlock(f: FileContent): string
  {
    "File: " + f.path + "\n" + "```\n" + f.content + "\n```\n\n"
  }

  /** The blocks of all files, in order. */
  function FileBlocks(files: seq<FileContent>): string
  {
    ConcatMap(FileBlock, files)
  }

  /** The blocks of two runs of files are the blocks of each, one after
      the other. */
  lemma FileBlocksAppend(a: seq<FileContent>, b: seq<FileContent>)
    ensures FileBlocks(a + b) == FileBlocks(a) + FileBlocks(b)
  {
    ConcatMapAppend(FileBlock, a, b);
  }

  /** `buildAnalysisPrompt`: the configuration's analysis prompt, a blank
      line, then one block per file. */
  method BuildAnalysisPrompt(analysisPrompt: Option<string>, files: seq<FileContent>) returns (prompt: string)
    ensures prompt == Shown(analysisPrompt) + "\n\n" + FileBlocks(files)
    ensures StartsWith(prompt, Shown(analysisPrompt) + "\n\n")
  {
    prompt := Shown(analysisPrompt) + "\n\n";
    var i := 0;
    while i < |files|
      invariant 0 <= i <= |files|
      invariant prompt == Shown(analysisPrompt) + "\n\n" + FileBlocks(files[..i])
    {
      ConcatMapLast(FileBlock, files[..i], files[i]);
      assert files[..i + 1] == files[..i] + [files[i]];
      Regroup(Shown(analysisPrompt) + "\n\n", FileBlocks(files[..i]), FileBlock(files[i]));
      prompt := prompt + FileBlock(files[i]);
      i := i + 1;
    }
    assert files[..|files|] == files;
  }

  /** What the HTTP exchange came to: a response whose body is absent or a
      JSON object, or an exception with its message. */
  datatype Exchange = Responded(body: Option<map<string, JsonValue>>) | Threw(message: Option<string>)

  const InvalidApiResponse: string := "Invalid API response"

  /** The reading of the response in `callLLMAPI`: the `content` of the
      first choice's `message` (which may be `null`). No body, no `choices`
      key or an empty `choices` list raise "Invalid API response"; a value
      of the wrong type or a `null` where an object is needed raises a
      runtime exception whose message is `faultMessage`. */
  function ExtractReply(body: Option<map<string, JsonValue>>, faultMessage: Option<string>): (r: Result<Option<string>, Option<string>>)
    ensures (body.None? || "choices" !in body.value || body.value["choices"] == JArray([])) ==> r == Err(Some(InvalidApiResponse))
    ensures r.Ok? ==>
      && body.Some? && "choices" in body.value
      && body.value["choices"].JArray? && |body.value["choices"].items| > 0
      && body.value["choices"].items[0].JObject?
      && "message" in body.value["choices"].items[0].fields
      && body.value["choices"].items[0].fields["message"].JObject?
    ensures (&& body.Some? && "choices" in body.value && body.value["choices"].JArray?
             && |body.value["choices"].items| > 0 && body.value["choices"].items[0].JObject?
             && "message" in body.value["choices"].items[0].fields
             && body.value["choices"].items[0].fields["message"].JObject?) ==>
      var m := body.value["choices"].items[0].fields["message"].fields;
      && ("content" !in m || m["content"] == JNull ==> r == Ok(None))
      && ("content" in m && m["content"].JString? ==> r == Ok(Some(m["content"].s)))
      && ("content" in m && m["content"] != JNull && !m["content"].JString? ==> r == Err(faultMessage))
  {
    if body.None? || "choices" !in body.value then Err(Some(InvalidApiResponse))
    else
      var choices := body.value["choices"];
      if !choices.JArray? then Err(faultMessage)
      else if choices.items == [] then Err(Some(InvalidApiResponse))
      else
        var first := choices.items[0];
        if !first.JObject? || "message" !in first.fields || !first.fields["message"].JObject? then Err(faultMessage)
        else
          var message := first.fields["message"].fields;
          if "content" !in message || message["content"] == JNull then Ok(None)
          else if message["content"].JString? then Ok(Some(message["content"].s))
          else Err(faultMessage)
  }

  /** Whatever else the response holds (more choices, more keys, other
      fields of the message), a first choice whose message carries a string
      `content` gives back exactly that text, and the result never depends
      on the later choices. */
  lemma ReplyText(body: map<string, JsonValue>, rest: seq<JsonValue>, choice: map<string, JsonValue>,
                  message: map<string, JsonValue>, text: string, faultMessage: Option<string>)
    requires "choices" in body && body["choices"] == JArray([JObject(choice)] + rest)
    requires "message" in choice && choice["message"] == JObject(message)
    requires "content" in message && message["content"] == JString(text)
    ensures ExtractReply(Some(body), faultMessage) == Ok(Some(text))
    ensures ExtractReply(Some(body["choices" := JArray([JObject(choice)])]), faultMessage) == Ok(Some(text))
  {
  }

  /** The exchange, then the reading of its response. */
  function CallOutcome(exchange: Exchange, faultMessage: Option<string>): Result<Option<string>, Option<string>>
  {
    match exchange
    case Threw(message) => Err(message)
    case Responded(body) => ExtractReply(body, faultMessage)
  }

  /** `callLLMAPI` with the active configuration `config`. The request body
      is built first: `Map.of` refuses a `null` value, so a configuration
      without a system prompt throws NullPointerException (whose message
      is `null`) before any request is made. Otherwise the prompt goes to
      the model and the response is read. */
  function CallLLM(config: AIConfiguration, prompt: string, llm: string -> Exchange,
                   faultMessage: Option<string>): (r: Result<Option<string>, Option<string>>)
    ensures config.systemPrompt.None? ==> r == Err(None)
    ensures config.systemPrompt.Some? && llm(prompt).Threw? ==> r == Err(llm(prompt).message)
    ensures config.systemPrompt.Some? && llm(prompt).Responded? ==> r == ExtractReply(llm(prompt).body, faultMessage)
    ensures r.Ok? ==> config.systemPrompt.Some? && llm(prompt).Responded? && llm(prompt).body.Some?
  {
    if config.systemPrompt.None? then Err(None)
    else CallOutcome(llm(prompt), faultMessage)
  }

  /** An `Optional` holding the active configuration counts only when that
      configuration is active, which the first active one always is. */
  predicate Enabled(configs: seq<AIConfiguration>)
  {
    ActiveIndex(configs) >= 0 && configs[ActiveIndex(configs)].active
  }

  lemma EnabledIffSomeActive(configs: seq<AIConfiguration>)
    ensures Enabled(configs) <==> exists k :: 0 <= k < |configs| && configs[k].active
  {
  }

  /** `analyzeCode`: `None` is the `null` returned when no configuration
      is active. Then, in order: a missing path, a path that is not a
      directory, and a directory without code files each give their fixed
      text without calling the model; otherwise the prompt built from the
      files goes to the model (`prompts` lists what was sent) and its reply
      is returned; with no system prompt the request is never made. Every
      exception becomes "Error analyzing code: " and its message. */
  method AnalyzeCode(configs: seq<AIConfiguration>, project: ProjectPath,
                     llm: string -> Exchange, faultMessage: Option<string>)
    returns (r: Option<string>, prompts: seq<string>)
    ensures |prompts| <= 1
    ensures !Enabled(configs) ==> r.None? && prompts == []
    ensures Enabled(configs) && project.Missing? ==> r == Some("Error: Project directory not found.") && prompts == []
    ensures Enabled(configs) && project.NotDirectory? ==> r == Some("Error: Path is not a directory.") && prompts == []
    ensures Enabled(configs) && project.WalkFailed? ==> r == Some("Error analyzing code: " + Shown(project.message)) && prompts == []
    ensures Enabled(configs) && project.Directory? && CodeFiles(project.entries) == [] ==>
      r == Some("No code files found to analyze.") && prompts == []
    ensures (&& Enabled(configs) && project.Directory? && CodeFiles(project.entries) != []
             && configs[ActiveIndex(configs)].systemPrompt.None?) ==>
      r == Some("Error analyzing code: " + "null") && prompts == []
    ensures (&& Enabled(configs) && project.Directory? && CodeFiles(project.entries) != []
             && configs[ActiveIndex(configs)].systemPrompt.Some?) ==>
      && prompts == [Shown(configs[ActiveIndex(configs)].analysisPrompt) + "\n\n" + FileBlocks(CodeFiles(project.entries))]
      && r == match CallOutcome(llm(prompts[0]), faultMessage)
              case Ok(reply) => reply
              case Err(message) => Some("Error analyzing code: " + Shown(message))
  {
    prompts := [];
    if !Enabled(configs) {
      return None, prompts;
    }
    var config := configs[ActiveIndex(configs)];
    match project {
      case Missing =>
        return Some("Error: Project directory not found."), prompts;
      case NotDirectory =>
        return Some("Error: Path is not a directory."), prompts;
      case WalkFailed(message) =>
        return Some("Error analyzing code: " + Shown(message)), prompts;
      case Directory(entries) =>
        var files := ReadProjectFiles(entries);
        if files == [] {
          return Some("No code files found to analyze."), prompts;
        }
        var prompt := BuildAnalysisPrompt(config.analysisPrompt, files);
        if config.systemPrompt.Some? {
          prompts := [prompt];
        }
        var outcome := CallLLM(config, prompt, llm, faultMessage);
        match outcome {
          case Ok(reply) => r := reply;
          case Err(message) => r := Some("Error analyzing code: " + Shown(message));
        }
    }
  }

  /** `analyzeSubmissionText`: `None` when no configuration is active;
      otherwise the model's reply to the prompt, or "Error analyzing
      submissions: " and the exception's message, which is "null" when the
      active configuration has no system prompt. */
  function AnalyzeSubmissionText(configs: seq<AIConfiguration>, prompt: string,
                                 llm: string -> Exchange, faultMessage: Option<string>): (r: Option<string>)
    ensures !Enabled(configs) ==> r.None?
    ensures Enabled(configs) && configs[ActiveIndex(configs)].systemPrompt.None? ==>
      r == Some("Error analyzing submissions: " + "null")
    ensures (&& Enabled(configs) && configs[ActiveIndex(configs)].systemPrompt.Some?
             && CallOutcome(llm(prompt), faultMessage).Err?) ==>
      r == Some("Error analyzing submissions: " + Shown(CallOutcome(llm(prompt), faultMessage).error))
    ensures (&& Enabled(configs) && configs[ActiveIndex(configs)].systemPrompt.Some?
             && CallOutcome(llm(prompt), faultMessage).Ok?) ==> r == CallOutcome(llm(prompt), faultMessage).value
  {
    if !Enabled(configs) then None
    else match CallLLM(configs[ActiveIndex(configs)], prompt, llm, faultMessage)
      case Ok(reply) => reply
      case Err(message) => Some("Error analyzing submissions: " + Shown(message))
  }
}
