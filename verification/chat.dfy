/**
 The chat assistant: the reply classifier (`generateAliceResponse`) and the
 message log it feeds (`handleSendMessage`, `addMessage` and the delayed
 reply). Replies are tags, not the literal reply texts; the `onDeploy`
 callback is returned as the list of calls it receives.
 */
module Chat {
  import opened Wrappers
  import opened Text
  import opened Command

  /** Which reply the assistant gives. */
  datatype Reply =
    | DeployAck(branch: string, environment: string)
    | Help
    | Status
    | Env
    | Branch
    | Thanks
    | Hello
    | Default

  /** A reply together with the `onDeploy(branch, environment)` calls made
      while producing it, in order. */
  datatype Response = Response(reply: Reply, deployCalls: seq<DeployCommand>)

  /** One keyword rule: it fires when any of its keywords occurs in the
      lower-cased message. */
  datatype Rule = Rule(keywords: seq<string>, reply: Reply)

  /** The keyword rules in the order the classifier tries them. */
  const Rules: seq<Rule> := [
    Rule(["help", "how"], Help),
    Rule(["status", "deployment"], Status),
    Rule(["environment", "staging"], Env),
    Rule(["branch"], Branch),
    Rule(["thanks", "thank you"], Thanks),
    Rule(["hello", "hi"], Hello)
  ]

  ghost predicate RuleFires(rule: Rule, lower: string) {
    exists k :: 0 <= k < |rule.keywords| && Substring(rule.keywords[k], lower)
  }

  /** `generateAliceResponse`: a parsed deployment command wins and is handed
      to `onDeploy`; otherwise the first keyword rule that fires, in the
      order of `Rules`, chooses the reply; otherwise the default reply. */
  function GenerateResponse(message: string): (r: Response)
    ensures r.reply.DeployAck? <==> r.deployCalls != []
  {
    var lower := Lower(message);
    match ParseDeploymentCommand(message)
    case Some(c) => Response(DeployAck(c.branch, c.environment), [c])
    case None =>
      var reply :=
        if Includes(lower, "help") || Includes(lower, "how") then Help
        else if Includes(lower, "status") || Includes(lower, "deployment") then Status
        else if Includes(lower, "environment") || Includes(lower, "staging") then Env
        else if Includes(lower, "branch") then Branch
        else if Includes(lower, "thanks") || Includes(lower, "thank you") then Thanks
        else if Includes(lower, "hello") || Includes(lower, "hi") then Hello
        else Default;
      Response(reply, [])
  }

  /** `onDeploy` is called exactly once, with the parsed branch and
      environment, when the message parses as a deployment command, and
      never otherwise; the acknowledgement names the same pair. */
  lemma DeployCallbackExactlyOnce(message: string)
    ensures match ParseDeploymentCommand(message)
      case Some(c) =>
        GenerateResponse(message) == Response(DeployAck(c.branch, c.environment), [c])
      case None =>
        GenerateResponse(message).deployCalls == [] && !GenerateResponse(message).reply.DeployAck?
  {
  }

  /** Without a deployment command, the reply is that of the first keyword
      rule that fires on the lower-cased message, and the default reply when
      none fires. */
  lemma ReplyIsFirstFiringRule(message: string)
    requires ParseDeploymentCommand(message).None?
    ensures forall i :: 0 <= i < |Rules| ==>
      (GenerateResponse(message).reply == Rules[i].reply <==>
        RuleFires(Rules[i], Lower(message)) && forall j :: 0 <= j < i ==> !RuleFires(Rules[j], Lower(message)))
    ensures GenerateResponse(message).reply == Default <==>
      forall i :: 0 <= i < |Rules| ==> !RuleFires(Rules[i], Lower(message))
  {
    RulesFireByIncludes(Lower(message));
  }

  /** Keywords are matched regardless of case: without a deployment command
      the reply to a message is the reply to its lower-cased form. */
  lemma ReplyIgnoresCase(message: string)
    requires ParseDeploymentCommand(message).None?
    ensures GenerateResponse(Lower(message)) == GenerateResponse(message)
  {
    ParseIgnoresCase(message);
    LowerIdempotent(message);
  }

  /** The rule table read with the executable substring search. */
  lemma RulesFireByIncludes(lower: string)
    ensures RuleFires(Rules[0], lower) <==> Includes(lower, "help") || Includes(lower, "how")
    ensures RuleFires(Rules[1], lower) <==> Includes(lower, "status") || Includes(lower, "deployment")
    ensures RuleFires(Rules[2], lower) <==> Includes(lower, "environment") || Includes(lower, "staging")
    ensures RuleFires(Rules[3], lower) <==> Includes(lower, "branch")
    ensures RuleFires(Rules[4], lower) <==> Includes(lower, "thanks") || Includes(lower, "thank you")
    ensures RuleFires(Rules[5], lower) <==> Includes(lower, "hello") || Includes(lower, "hi")
  {
    RuleOfTwo(Rules[0], lower);
    RuleOfTwo(Rules[1], lower);
    RuleOfTwo(Rules[2], lower);
    RuleOfOne(Rules[3], lower);
    RuleOfTwo(Rules[4], lower);
    RuleOfTwo(Rules[5], lower);
  }

  lemma RuleOfOne(rule: Rule, lower: string)
    requires |rule.keywords| == 1
    ensures RuleFires(rule, lower) <==> Includes(lower, rule.keywords[0])
  {
    if Includes(lower, rule.keywords[0]) {
      assert Substring(rule.keywords[0], lower);
    }
  }

  lemma RuleOfTwo(rule: Rule, lower: string)
    requires |rule.keywords| == 2
    ensures RuleFires(rule, lower) <==> Includes(lower, rule.keywords[0]) || Includes(lower, rule.keywords[1])
  {
    if Includes(lower, rule.keywords[0]) {
      assert Substring(rule.keywords[0], lower);
    }
    if Includes(lower, rule.keywords[1]) {
      assert Substring(rule.keywords[1], lower);
    }
  }

  /** Keywords are substrings, not words: "how" inside "show" fires the
      help rule. */
  lemma HowInsideShow()
    ensures GenerateResponse("Show me").reply == Help
  {
    var m := "Show me";
    assert Lower(m) == "show me";
    NoFirstLetterNoOccurrence(Lower(m), DeployWord);
    NoDeployWordNoCommand(m);
    assert OccursAt(Lower(m), "how", 1);
    ReplyIsFirstFiringRule(m);
  }

  // ---------------------------------------------------------------------------
  // The message log

  datatype Message =
    | Greeting               // the assistant's opening message
    | User(text: string)     // a message the user sent
    | Bot(reply: Reply)      // a reply of the assistant

  /** `messages`, `inputText` and `isTyping`, plus the messages whose delayed
      reply has been scheduled and not yet delivered. */
  datatype ChatState = ChatState(messages: seq<Message>, input: string, typing: bool, pending: seq<string>)

  const InitialChat: ChatState := ChatState([Greeting], "", false, [])

  /** The input box's change handler. */
  function SetInput(st: ChatState, text: string): (st': ChatState)
    ensures st'.input == text && st'.messages == st.messages && st'.pending == st.pending
    ensures st'.typing == st.typing
  {
    st.(input := text)
  }

  /** `handleSendMessage`: whitespace-only input is ignored; otherwise the
      trimmed text is appended as a user message, the box is cleared, the
      typing indicator is shown and a reply to the trimmed text is
      scheduled. */
  function HandleSend(st: ChatState): (st': ChatState)
    ensures IsBlank(st.input) ==> st' == st
    ensures !IsBlank(st.input) ==>
      && |st'.messages| == |st.messages| + 1
      && st'.messages[..|st.messages|] == st.messages
      && st'.messages[|st.messages|] == User(Trim(st.input))
      && Trim(st.input) != [] && Trim(Trim(st.input)) == Trim(st.input)
      && st'.input == [] && st'.typing
      && st'.pending == st.pending + [Trim(st.input)]
  {
    var text := Trim(st.input);
    if |text| == 0 then st
    else
      TrimIdempotent(st.input);
      ChatState(st.messages + [User(text)], "", true, st.pending + [text])
  }

  /** The outcome of a reply timer: the new chat state and the `onDeploy`
      calls made. */
  datatype Fired = Fired(state: ChatState, deployCalls: seq<DeployCommand>)

  /** The reply timer of the `k`-th pending message fires (the delays are
      random, so any pending reply may come first): the reply is appended,
      the typing indicator is cleared. */
  function ReplyFires(st: ChatState, k: nat): (f: Fired)
    requires k < |st.pending|
    ensures |f.state.messages| == |st.messages| + 1
    ensures f.state.messages[..|st.messages|] == st.messages
    ensures f.state.messages[|st.messages|] == Bot(GenerateResponse(st.pending[k]).reply)
    ensures f.deployCalls == GenerateResponse(st.pending[k]).deployCalls
    ensures !f.state.typing && f.state.input == st.input
    ensures |f.state.pending| == |st.pending| - 1
    ensures multiset(f.state.pending) + multiset{st.pending[k]} == multiset(st.pending)
  {
    var message := st.pending[k];
    var response := GenerateResponse(message);
    assert st.pending == st.pending[..k] + [message] + st.pending[k + 1..];
    Fired(
      st.(messages := st.messages + [Bot(response.reply)], typing := false,
          pending := st.pending[..k] + st.pending[k + 1..]),
      response.deployCalls)
  }

  /** One exchange: sending a non-blank message and then receiving its
      reply appends exactly the trimmed user message followed by the
      assistant's reply to it, leaves the earlier messages as they were,
      leaves the other pending replies as they were, and makes the
      `onDeploy` calls of that reply. Sending a blank message changes
      nothing. Earlier replies may still be pending: the send button is
      disabled only for blank input. */
  lemma {:induction false} ExchangeAppendsTwo(st: ChatState)
    ensures IsBlank(st.input) ==> HandleSend(st) == st
    ensures !IsBlank(st.input) ==>
      var text := Trim(st.input);
      var f := ReplyFires(HandleSend(st), |st.pending|);
      && f.state.messages == st.messages + [User(text), Bot(GenerateResponse(text).reply)]
      && f.state.pending == st.pending
      && !f.state.typing
      && f.deployCalls == GenerateResponse(text).deployCalls
  {
    if !IsBlank(st.input) {
      var text := Trim(st.input);
      var sent := HandleSend(st);
      assert sent.messages == st.messages + [User(text)];
      assert sent.pending == st.pending + [text];
      assert sent.pending[..|st.pending|] == st.pending;
    }
  }

  /** Typing a text and pressing send: the log gains the trimmed text, or
      nothing when the text is blank, whatever the box held before. */
  lemma TypeThenSend(st: ChatState, text: string)
    ensures HandleSend(SetInput(st, text)).messages ==
      st.messages + (if IsBlank(text) then [] else [User(Trim(text))])
    ensures HandleSend(SetInput(st, text)).pending ==
      st.pending + (if IsBlank(text) then [] else [Trim(text)])
  {
  }
}
