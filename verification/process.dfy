/** The upload-and-extract handler: the prompt it sends, the salvage of a
    JSON block from text around it, and how every outcome becomes an HTTP
    status. `JSON.parse`, the completion service and the database are
    parameters: `parse` gives the parsed value or nothing when `JSON.parse`
    throws, the call script says what each completion call produces, and
    `store` gives the new menu's id or nothing when creating the table or
    inserting the row throws. */
module Process {
  import opened JsValues
  import opened Text
  import opened Schema
  import opened Retry

  // ---------------------------------------------------------------------------
  // The prompt
  // ---------------------------------------------------------------------------

  /** The instructions before the uploaded text, ending with the opening fence. */
  const PromptHead: string :=
    "You are an expert data extraction assistant.\n"
    + "Extract a structured \"Home Chef\" style menu from the provided text. Return STRICT JSON that matches this TypeScript type:\n"
    + "\n"
    + "type Menu = {\n"
    + "  vendor?: string;\n"
    + "  currency?: string; // e.g., \"INR\", \"USD\", or symbol like \"Rs\" / \"\U{20B9}\"\n"
    + "  items: {\n"
    + "    name: string; // dish name\n"
    + "    category?: string; // e.g., \"Veg\", \"Non-Veg\", \"Starter\", \"Main Course\"\n"
    + "    description?: string;\n"
    + "    price?: string | number; // if multiple prices exist, choose the most likely single price or omit\n"
    + "    options?: { label: string; price?: string | number }[]; // optional variants\n"
    + "  }[];\n"
    + "}\n"
    + "\n"
    + "Guidelines:\n"
    + "- If the text is a WhatsApp chat export, ignore non-menu chatter and timestamps.\n"
    + "- Consolidate duplicate items and prefer the clearest naming.\n"
    + "- Detect currency symbols such as Rs, \U{20B9}, $, INR and set currency accordingly.\n"
    + "- Keep descriptions short if present; it's ok to omit.\n"
    + "- If menu-like items are absent, return an empty items array.\n"
    + "- Respond with ONLY JSON. No markdown, no backticks, no commentary.\n"
    + "\n"
    + "Text:\n"
    + "---\n"

  /** The closing fence after the uploaded text. */
  const PromptTail: string := "\n---"

  /** `buildPrompt`: the uploaded text, verbatim, between the fixed
      instructions and the closing fence. */
  function BuildPrompt(text: string): (prompt: string)
    ensures |prompt| == |PromptHead| + |text| + |PromptTail|
    ensures prompt[..|PromptHead|] == PromptHead
    ensures prompt[|prompt| - |PromptTail|..] == PromptTail
    ensures prompt[|PromptHead|..|prompt| - |PromptTail|] == text
  {
    var prompt := PromptHead + text + PromptTail;
    assert prompt[|PromptHead|..|prompt| - |PromptTail|] == text;
    prompt
  }

  /** Different uploads give different prompts: nothing of the text is lost. */
  lemma BuildPromptInjective(a: string, b: string)
    requires BuildPrompt(a) == BuildPrompt(b)
    ensures a == b
  {
    var p := BuildPrompt(a);
    assert a == p[|PromptHead|..|p| - |PromptTail|];
  }

  // ---------------------------------------------------------------------------
  // Salvage
  // ---------------------------------------------------------------------------

  /** The index of the first `c` in `s`, if any. */
  function FirstIndex(s: string, c: char, from: nat): (r: Option<nat>)
    requires from <= |s|
    ensures r.Some? ==> from <= r.value < |s| && s[r.value] == c && forall k :: from <= k < r.value ==> s[k] != c
    ensures r.None? ==> forall k :: from <= k < |s| ==> s[k] != c
    decreases |s| - from
  {
    if from == |s| then None
    else if s[from] == c then Some(from)
    else FirstIndex(s, c, from + 1)
  }

  /** The index of the last `c` in `s[..upto]`, if any. */
  function LastIndex(s: string, c: char, upto: nat): (r: Option<nat>)
    requires upto <= |s|
    ensures r.Some? ==> r.value < upto && s[r.value] == c && forall k :: r.value < k < upto ==> s[k] != c
    ensures r.None? ==> forall k :: 0 <= k < upto ==> s[k] != c
    decreases upto
  {
    if upto == 0 then None
    else if s[upto - 1] == c then Some(upto - 1)
    else LastIndex(s, c, upto - 1)
  }

  /** Where `raw.match(/\{[\s\S]*\}/)` matches: the leftmost `{` that has a
      `}` after it, through the rightmost `}` (the star is greedy). Since any
      `{` with a `}` after it will do, the match starts at the first `{` of
      all, and there is a match exactly when some `{` comes before some `}`. */
  function SalvageSpan(raw: string): (r: Option<(nat, nat)>)
    ensures r.Some? ==>
      && r.value.0 < r.value.1 < |raw|
      && raw[r.value.0] == '{' && raw[r.value.1] == '}'
      && (forall k :: 0 <= k < r.value.0 ==> raw[k] != '{')
      && (forall k :: r.value.1 < k < |raw| ==> raw[k] != '}')
    ensures r.None? <==> forall i, j :: 0 <= i < j < |raw| && raw[i] == '{' ==> raw[j] != '}'
  {
    match FirstIndex(raw, '{', 0)
    case None => None
    case Some(i) =>
      match LastIndex(raw, '}', |raw|)
      case None => None
      case Some(j) => if i < j then Some((i, j)) else None
  }

  /** The text the salvage step parses: the matched span. */
  function SalvageCandidate(raw: string): (c: Option<string>)
    ensures c.Some? ==> |c.value| >= 2 && c.value[0] == '{' && c.value[|c.value| - 1] == '}'
    ensures c.Some? <==> SalvageSpan(raw).Some?
  {
    match SalvageSpan(raw)
    case None => None
    case Some((i, j)) => Some(raw[i..j + 1])
  }

  /** Prose around a single block is cut away: with no `{` before the block
      and no `}` after it, the salvaged text is exactly the block. */
  lemma SalvageStripsProse(before: string, block: string, after: string)
    requires |block| >= 2 && block[0] == '{' && block[|block| - 1] == '}'
    requires forall k :: 0 <= k < |before| ==> before[k] != '{'
    requires forall k :: 0 <= k < |after| ==> after[k] != '}'
    ensures SalvageCandidate(before + block + after) == Some(block)
  {
    var raw := before + block + after;
    var i := |before|;
    var j := |before| + |block| - 1;
    assert raw[i] == '{' && raw[j] == '}';
    assert forall k :: 0 <= k < i ==> raw[k] == before[k];
    assert forall k :: j < k < |raw| ==> raw[k] == after[k - j - 1];
    assert SalvageSpan(raw) == Some((i, j));
    assert raw[i..j + 1] == block;
  }

  /** The direct parse, then the salvage. */
  datatype ParseOutcome =
    | Parsed(value: Json)
    | NoJsonBlock    // the direct parse failed and the text holds no `{ ... }`
    | SalvageThrew   // the salvaged span did not parse either; the exception escapes

  function ParseModelOutput(raw: string, parse: string -> Option<Json>): (r: ParseOutcome)
    ensures parse(raw).Some? ==> r == Parsed(parse(raw).value)
    ensures r.NoJsonBlock? <==> parse(raw).None? && SalvageCandidate(raw).None?
    ensures r.SalvageThrew? <==> parse(raw).None? && SalvageCandidate(raw).Some? && parse(SalvageCandidate(raw).value).None?
    ensures r.Parsed? && parse(raw).None? ==> r == Parsed(parse(SalvageCandidate(raw).value).value)
  {
    match parse(raw)
    case Some(v) => Parsed(v)
    case None =>
      match SalvageCandidate(raw)
      case None => NoJsonBlock
      case Some(c) =>
        match parse(c)
        case Some(v) => Parsed(v)
        case None => SalvageThrew
  }

  // ---------------------------------------------------------------------------
  // The handler
  // ---------------------------------------------------------------------------

  /** `formData.get("file")`: nothing, a plain text field, or an uploaded file
      (its content already decoded as UTF-8). */
  datatype FileField = NoFile | TextField(value: string) | Upload(content: string)

  /** `req.formData()` either throws or yields the `file` field. */
  datatype Form = Unreadable | Form(file: FileField)

  datatype Body =
    | Message(text: string)
    | ValidationFailed(issues: seq<Issue>, raw: string)
    | Saved(menuId: int, menu: Menu)

  datatype Response = Response(status: int, body: Body)

  /** The response plus what the handler did on the way: the uploaded text
      it built the prompt from (if it got that far), the completion calls
      made, the sleeps requested, and the menus handed to the store. */
  datatype Exchange = Exchange(
    response: Response,
    upload: Option<string>,
    calls: nat,
    sleepsMs: seq<nat>,
    stored: seq<Menu>)

  /** The prompt the handler sent to the completion service, if any. */
  function SentPrompt(x: Exchange): Option<string> {
    if x.upload.Some? then Some(BuildPrompt(x.upload.value)) else None
  }

  const MissingFile := "Missing file"
  const MissingKey := "GEMINI_API_KEY not configured"
  const EmptyOutput := "Empty response from model"
  const NotJson := "Model did not return valid JSON"
  const ServerError := "Server error"

  function Reply(status: int, body: Body): Exchange {
    Exchange(Response(status, body), None, 0, [], [])
  }

  /** The steps after the model's text is in hand: parse (with salvage),
      validate, store. Returns the response and the menus handed to the store. */
  function Conclude(raw: string, parse: string -> Option<Json>, store: Menu -> Option<int>): (r: (Response, seq<Menu>))
    ensures |r.1| <= 1
    ensures r.0.status in {200, 422, 500, 502}
  {
    if raw == [] then (Response(502, Message(EmptyOutput)), [])
    else
      match ParseModelOutput(raw, parse)
      case NoJsonBlock => (Response(502, Message(NotJson)), [])
      case SalvageThrew => (Response(500, Message(ServerError)), [])
      case Parsed(v) =>
        match Validate(v)
        case Failure(issues) => (Response(422, ValidationFailed(issues, raw)), [])
        case Success(menu) =>
          match store(menu)
          case None => (Response(500, Message(ServerError)), [menu])
          case Some(id) => (Response(200, Saved(id, menu)), [menu])
  }

  /** An admitted upload: build the prompt, call with retries, conclude. */
  function Extract(text: string, script: seq<CallOutcome>, parse: string -> Option<Json>,
                   store: Menu -> Option<int>): (x: Exchange)
    requires |script| >= MaxAttempts
    ensures x.upload == Some(text)
    ensures x.calls == GenerateWithRetry(script).calls && x.sleepsMs == GenerateWithRetry(script).sleepsMs
    ensures GenerateWithRetry(script).result.Failed? ==> x.response == Response(500, Message(ServerError)) && x.stored == []
    ensures GenerateWithRetry(script).result.Returned? ==>
      (x.response, x.stored) == Conclude(GenerateWithRetry(script).result.raw, parse, store)
  {
    var run := GenerateWithRetry(script);
    var outcome := match run.result
      case Failed(_) => (Response(500, Message(ServerError)), [])
      case Returned(raw) => Conclude(raw, parse, store);
    Exchange(outcome.0, Some(text), run.calls, run.sleepsMs, outcome.1)
  }

  /** `POST`. */
  function Post(
    form: Form,
    apiKey: Option<string>,
    script: seq<CallOutcome>,
    parse: string -> Option<Json>,
    store: Menu -> Option<int>): (x: Exchange)
    requires |script| >= MaxAttempts
    ensures x.response.status in {200, 400, 422, 500, 502}
    ensures |x.stored| <= 1
    ensures x.calls <= MaxAttempts
  {
    match form
    case Unreadable => Reply(500, Message(ServerError))
    case Form(NoFile) => Reply(400, Message(MissingFile))
    case Form(TextField(v)) =>
      // `!file` holds only for the empty string; any other text has no
      // `arrayBuffer` method and the call throws.
      if v == [] then Reply(400, Message(MissingFile)) else Reply(500, Message(ServerError))
    case Form(Upload(text)) =>
      if apiKey.None? || apiKey.value == [] then Reply(500, Message(MissingKey))
      else Extract(text, script, parse, store)
  }

  // ---------------------------------------------------------------------------
  // What the handler promises
  // ---------------------------------------------------------------------------

  /** The request got past the two configuration checks. */
  predicate Admitted(form: Form, apiKey: Option<string>) {
    form.Form? && form.file.Upload? && apiKey.Some? && apiKey.value != []
  }

  /** A missing file is 400 and a missing key is 500, both before any call.
      A form that cannot be read, or a `file` field holding non-empty text
      (which has no `arrayBuffer` method), throws into the outer handler: 500.
      An empty text field is falsy, so it counts as a missing file. */
  lemma RejectedBeforeCalling(form: Form, apiKey: Option<string>, script: seq<CallOutcome>,
                              parse: string -> Option<Json>, store: Menu -> Option<int>)
    requires |script| >= MaxAttempts
    ensures form == Form(NoFile) ==> Post(form, apiKey, script, parse, store).response == Response(400, Message(MissingFile))
    ensures form == Unreadable ==> Post(form, apiKey, script, parse, store).response == Response(500, Message(ServerError))
    ensures form.Form? && form.file.TextField? ==>
      Post(form, apiKey, script, parse, store).response
        == (if form.file.value == [] then Response(400, Message(MissingFile)) else Response(500, Message(ServerError)))
    ensures form.Form? && form.file.Upload? && (apiKey.None? || apiKey.value == []) ==>
      Post(form, apiKey, script, parse, store).response == Response(500, Message(MissingKey))
    ensures !Admitted(form, apiKey) ==>
      Post(form, apiKey, script, parse, store).calls == 0 && Post(form, apiKey, script, parse, store).stored == []
  {
  }

  /** An admitted request sends the prompt built from the upload, as often as
      the retry loop calls. */
  lemma SendsThePrompt(form: Form, apiKey: Option<string>, script: seq<CallOutcome>,
                       parse: string -> Option<Json>, store: Menu -> Option<int>)
    requires |script| >= MaxAttempts
    requires Admitted(form, apiKey)
    ensures var x := Post(form, apiKey, script, parse, store);
      && SentPrompt(x) == Some(BuildPrompt(form.file.content))
      && x.calls == GenerateWithRetry(script).calls
      && x.sleepsMs == GenerateWithRetry(script).sleepsMs
  {
    PostAdmitted(form, apiKey, script, parse, store);
  }

  /** A thrown generation error (rate limiting exhausted, any other service
      error, or blank output) is a 500 and nothing is stored. */
  lemma GenerationFailureIs500(form: Form, apiKey: Option<string>, script: seq<CallOutcome>,
                               parse: string -> Option<Json>, store: Menu -> Option<int>)
    requires |script| >= MaxAttempts
    requires Admitted(form, apiKey)
    requires GenerateWithRetry(script).result.Failed?
    ensures Post(form, apiKey, script, parse, store).response == Response(500, Message(ServerError))
    ensures Post(form, apiKey, script, parse, store).stored == []
  {
    PostAdmitted(form, apiKey, script, parse, store);
  }

  /** For model text in hand: the invalid-JSON 502 exactly when the direct
      parse fails and the text has no `{` before a `}`; the blank-text 502
      only for blank text. */
  lemma Conclude502(raw: string, parse: string -> Option<Json>, store: Menu -> Option<int>)
    ensures var r := Conclude(raw, parse, store);
      && (r.0.status == 502 && raw != [] ==> r.0.body == Message(NotJson))
      && (r.0.status == 502 && raw != [] <==> raw != [] && parse(raw).None? && SalvageSpan(raw).None?)
  {
  }

  /** The "Empty response from model" 502 is never sent: the loop never
      returns blank text, so that check cannot fire. Every 502 is the
      invalid-JSON one, sent exactly when the direct parse fails and the text
      has no `{` before a `}`. */
  lemma Status502Iff(form: Form, apiKey: Option<string>, script: seq<CallOutcome>,
                     parse: string -> Option<Json>, store: Menu -> Option<int>)
    requires |script| >= MaxAttempts
    ensures var x := Post(form, apiKey, script, parse, store);
      && (x.response.status == 502 ==> x.response.body == Message(NotJson))
      && (x.response.status == 502 <==>
            && Admitted(form, apiKey)
            && GenerateWithRetry(script).result.Returned?
            && parse(GenerateWithRetry(script).result.raw).None?
            && SalvageSpan(GenerateWithRetry(script).result.raw).None?)
  {
    if Admitted(form, apiKey) {
      PostAdmitted(form, apiKey, script, parse, store);
      var run := GenerateWithRetry(script);
      if run.result.Returned? {
        Conclude502(run.result.raw, parse, store);
      }
    }
  }

  /** When the salvaged span does not parse either, the exception reaches the
      outer handler: 500, not 502. */
  lemma SalvageParseFailureIs500(form: Form, apiKey: Option<string>, script: seq<CallOutcome>,
                                 parse: string -> Option<Json>, store: Menu -> Option<int>)
    requires |script| >= MaxAttempts
    requires Admitted(form, apiKey)
    requires GenerateWithRetry(script).result.Returned?
    requires var raw := GenerateWithRetry(script).result.raw;
      parse(raw).None? && SalvageCandidate(raw).Some? && parse(SalvageCandidate(raw).value).None?
    ensures Post(form, apiKey, script, parse, store).response == Response(500, Message(ServerError))
    ensures Post(form, apiKey, script, parse, store).stored == []
  {
    PostAdmitted(form, apiKey, script, parse, store);
  }

  /** A validated menu that the store fails to save (creating the table or
      inserting the row throws) reaches the outer handler: the generic 500,
      after that one menu was handed to the store. */
  lemma StoreFailureIs500(form: Form, apiKey: Option<string>, script: seq<CallOutcome>,
                          parse: string -> Option<Json>, store: Menu -> Option<int>)
    requires |script| >= MaxAttempts
    requires Admitted(form, apiKey)
    requires GenerateWithRetry(script).result.Returned?
    requires ParseModelOutput(GenerateWithRetry(script).result.raw, parse).Parsed?
    requires Validate(ParseModelOutput(GenerateWithRetry(script).result.raw, parse).value).Success?
    requires store(Validate(ParseModelOutput(GenerateWithRetry(script).result.raw, parse).value).value).None?
    ensures Post(form, apiKey, script, parse, store).response == Response(500, Message(ServerError))
    ensures Post(form, apiKey, script, parse, store).stored
      == [Validate(ParseModelOutput(GenerateWithRetry(script).result.raw, parse).value).value]
  {
    PostAdmitted(form, apiKey, script, parse, store);
  }

  /** For model text in hand: a parsed value the schema refuses gives 422
      with the issues and the text; only a validated menu is stored, and 200
      means it was stored under the id the store returned. */
  lemma ConcludeStores(raw: string, parse: string -> Option<Json>, store: Menu -> Option<int>)
    requires raw != []
    ensures var r := Conclude(raw, parse, store);
      && (r.0.status == 422 <==> ParseModelOutput(raw, parse).Parsed? && !MenuAccepted(ParseModelOutput(raw, parse).value))
      && (r.0.status == 422 ==>
            && r.0.body.ValidationFailed? && |r.0.body.issues| > 0 && r.0.body.raw == raw && r.1 == [])
      && (r.1 != [] ==>
            && ParseModelOutput(raw, parse).Parsed?
            && Validate(ParseModelOutput(raw, parse).value) == Success(r.1[0]))
      && (r.0.status == 200 <==>
            && ParseModelOutput(raw, parse).Parsed?
            && Validate(ParseModelOutput(raw, parse).value).Success?
            && store(Validate(ParseModelOutput(raw, parse).value).value).Some?)
      && (r.0.status == 200 ==>
            && r.0.body.Saved? && r.1 == [r.0.body.menu] && Some(r.0.body.menuId) == store(r.0.body.menu))
  {
  }

  /** Past the configuration checks, the handler is the extraction. */
  lemma PostAdmitted(form: Form, apiKey: Option<string>, script: seq<CallOutcome>,
                     parse: string -> Option<Json>, store: Menu -> Option<int>)
    requires |script| >= MaxAttempts
    requires Admitted(form, apiKey)
    ensures Post(form, apiKey, script, parse, store) == Extract(form.file.content, script, parse, store)
  {
    assert form == Form(Upload(form.file.content));
  }

  /** A parsed value the schema refuses is a 422 carrying the issues and the
      raw model text, and nothing is stored. */
  lemma ValidationFailureIs422(form: Form, apiKey: Option<string>, script: seq<CallOutcome>,
                               parse: string -> Option<Json>, store: Menu -> Option<int>)
    requires |script| >= MaxAttempts
    requires Admitted(form, apiKey)
    requires GenerateWithRetry(script).result.Returned?
    requires ParseModelOutput(GenerateWithRetry(script).result.raw, parse).Parsed?
    requires !MenuAccepted(ParseModelOutput(GenerateWithRetry(script).result.raw, parse).value)
    ensures var x := Post(form, apiKey, script, parse, store);
      && x.response.status == 422
      && x.response.body.ValidationFailed?
      && |x.response.body.issues| > 0
      && x.response.body.raw == GenerateWithRetry(script).result.raw
      && x.stored == []
  {
    PostAdmitted(form, apiKey, script, parse, store);
    ConcludeStores(GenerateWithRetry(script).result.raw, parse, store);
  }

  /** Only validated menus reach the store, at most once, and a 422 stores
      nothing. */
  lemma StoresOnlyValidated(form: Form, apiKey: Option<string>, script: seq<CallOutcome>,
                            parse: string -> Option<Json>, store: Menu -> Option<int>)
    requires |script| >= MaxAttempts
    ensures var x := Post(form, apiKey, script, parse, store);
      && (x.response.status == 422 ==> x.stored == [])
      && (x.stored != [] ==>
            && Admitted(form, apiKey)
            && GenerateWithRetry(script).result.Returned?
            && ParseModelOutput(GenerateWithRetry(script).result.raw, parse).Parsed?
            && Validate(ParseModelOutput(GenerateWithRetry(script).result.raw, parse).value) == Success(x.stored[0])
            && WellFormed(x.stored[0]))
  {
    if Admitted(form, apiKey) {
      PostAdmitted(form, apiKey, script, parse, store);
      var run := GenerateWithRetry(script);
      if run.result.Returned? {
        ConcludeStores(run.result.raw, parse, store);
      }
    }
  }

  /** 200 exactly when every step succeeded; the body then carries the
      store's id and the validated menu, which is the one stored. */
  lemma SuccessIff(form: Form, apiKey: Option<string>, script: seq<CallOutcome>,
                   parse: string -> Option<Json>, store: Menu -> Option<int>)
    requires |script| >= MaxAttempts
    ensures var x := Post(form, apiKey, script, parse, store);
      x.response.status == 200 <==>
        && Admitted(form, apiKey)
        && GenerateWithRetry(script).result.Returned?
        && ParseModelOutput(GenerateWithRetry(script).result.raw, parse).Parsed?
        && Validate(ParseModelOutput(GenerateWithRetry(script).result.raw, parse).value).Success?
        && store(Validate(ParseModelOutput(GenerateWithRetry(script).result.raw, parse).value).value).Some?
    ensures var x := Post(form, apiKey, script, parse, store);
      x.response.status == 200 ==>
        && x.response.body.Saved?
        && x.stored == [x.response.body.menu]
        && Some(x.response.body.menuId) == store(x.response.body.menu)
  {
    if Admitted(form, apiKey) {
      PostAdmitted(form, apiKey, script, parse, store);
      var run := GenerateWithRetry(script);
      if run.result.Returned? {
        ConcludeStores(run.result.raw, parse, store);
      }
    }
  }
}
