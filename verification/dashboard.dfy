/**
 The page: the deployment wizard with the chat assistant beside it, the
 assistant's `onDeploy` callback wired to the wizard's pre-fill.
 */
module Dashboard {
  import opened Command
  import opened Chat
  import opened Wizard

  datatype Page = Page(chat: ChatState, wizard: WizardState)

  /** Hands each `onDeploy` call, in order, to the wizard's pre-fill. */
  function ApplyDeployCalls(w: WizardState, calls: seq<DeployCommand>): WizardState
    decreases |calls|
  {
    if calls == [] then w
    else
      var last := calls[|calls| - 1];
      PreFill(ApplyDeployCalls(w, calls[..|calls| - 1]), last.branch, last.environment)
  }

  /** The `k`-th pending chat reply is delivered, and the wizard receives the
      `onDeploy` calls it made. */
  function ChatReplyFires(d: Page, k: nat): Page
    requires k < |d.chat.pending|
  {
    var fired := Chat.ReplyFires(d.chat, k);
    Page(fired.state, ApplyDeployCalls(d.wizard, fired.deployCalls))
  }

  /** A chat reply pre-fills the wizard with the branch and environment of
      the deployment command the user typed, and switches it to the deploy
      tab, when the message parses as one; any other reply leaves the wizard
      untouched. */
  lemma ChatDeployPreFillsWizard(d: Page, k: nat)
    requires k < |d.chat.pending|
    ensures match ParseDeploymentCommand(d.chat.pending[k])
      case Some(c) =>
        && ChatReplyFires(d, k).wizard == PreFill(d.wizard, c.branch, c.environment)
        && ChatReplyFires(d, k).wizard.branch == c.branch
        && ChatReplyFires(d, k).wizard.environment == c.environment
        && ChatReplyFires(d, k).wizard.tab == DeployTab
      case None =>
        ChatReplyFires(d, k).wizard == d.wizard
  {
    DeployCallbackExactlyOnce(d.chat.pending[k]);
    match ParseDeploymentCommand(d.chat.pending[k])
    case Some(c) =>
      var calls := [c];
      assert calls[..0] == [];
      assert ApplyDeployCalls(d.wizard, calls) == PreFill(ApplyDeployCalls(d.wizard, []), c.branch, c.environment);
    case None =>
  }

  /** The example from the assistant's greeting, typed with a capital letter:
      the wizard ends up with `feature-auth` on `staging-3`, as typed. */
  lemma GreetingExample(w: WizardState)
    ensures var d := ChatReplyFires(Page(ChatState([], "", true, [GreetingCommand]), w), 0);
      d.wizard.branch == "feature-auth" && d.wizard.environment == "staging-3" && d.wizard.tab == DeployTab
  {
    ParseGreetingExample();
    var d := Page(ChatState([], "", true, [GreetingCommand]), w);
    ChatDeployPreFillsWizard(d, 0);
  }
}
