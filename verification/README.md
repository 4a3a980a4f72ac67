# Deployment dashboard front end: chat command parser and deployment wizard

This project models, in Dafny, the two front-end components of a browser
deployment dashboard:

- **The chat assistant** (`src/components/AliceChatBot.tsx`). It recognises
  messages such as `Deploy feature-auth to staging-3` with the regular
  expression `/deploy\s+([^\s]+)\s+to\s+([^\s]+)/i`, and hands the two groups
  to an `onDeploy` callback. Every other message gets a reply chosen by a fixed,
  ordered list of substring keyword rules. The user's trimmed message goes into
  the log at once; the reply arrives after a random delay.
- **The deployment wizard** (`src/components/DeploymentInterface.tsx`). It holds
  the branch, origin and environment catalogues and a simulated five-step
  deployment. In the source that deployment is an async loop with a 2-second
  timer per step, a progress percentage, a log entry prepended at the end and a
  3-second reset. The wizard also has a lock release and the pre-fill that the
  chat's `onDeploy` triggers.

Modules, one per concern:

| file | module | contents |
|---|---|---|
| `wrappers.dfy` | `Wrappers` | `Option` |
| `text.dfy` | `Text` | ECMAScript whitespace (`\s` and `trim()` use the same set), ASCII lower-casing, maximal runs, `trim`, `includes`, decimal rendering |
| `command.dfy` | `Command` | the deployment-command parser. `PatternAt` is the declarative meaning of the regular expression. `MatchAt`/`FindFrom` are the engine's deterministic outcome (greedy runs, leftmost start). |
| `chat.dfy` | `Chat` | reply classifier with its rule table, message log, send and delayed-reply transitions |
| `wizard.dfy` | `Wizard` | catalogues, wizard state, transitions, events, the invariant, whole-deployment lemmas |
| `dashboard.dfy` | `Dashboard` | the chat's `onDeploy` wired to the wizard's pre-fill |

Modelling choices:

- Replies are the tags `DeployAck(branch, env) | Help | Status | Env | Branch | Thanks | Hello | Default`, not the literal reply texts.
- Each `await`/`setTimeout` is an explicit transition:
  - `StepTimer` is one 2-second step timer.
  - `ResetTimer` is the 3-second reset. Resets are queued first in, first out.
  - `ReplyFires(k)` is a chat reply timer. The delays are random, so any pending reply may fire next.
- `handleDeploy`'s closure captures several values when it is called:
  - the selected branch and environment;
  - the log list;
  - its own copy of the steps.

  The `Run` record holds exactly that context. A pre-fill during a deployment therefore does not change what is logged (`Wizard.PreFillDuringRun`).
- A reset that was scheduled by the previous deployment can fire during a new one. It then briefly shows all steps as pending. The run's own copy of the steps stays authoritative, and the next step timer shows it again. The invariant allows for this.
- Progress is an exact `real`, computed as `(i + 1) / n * 100`. With five steps the values are exact multiples of 20. IEEE doubles also give these exact values.
- Clock readings (`Date.now()` ids, `new Date()` timestamps) are an opaque `Stamp` parameter of the transitions that take them.
- `isLocked` is never set to `true` anywhere in the component, so the release button can never appear (`Wizard.NeverLocked`).
- `Wizard.Enabled` states when each event can happen:
  - the pickers offer only catalogue entries;
  - the deploy button is shown only when unlocked and is disabled while deploying;
  - the release button is shown only when locked;
  - a timer fires only while it is scheduled.

  `Wizard.Next` applies an event.

## Model

| member | source | states |
|---|---|---|
| `Text.Lower` | src/components/AliceChatBot.tsx:64 | `toLowerCase()` keeps the length and lower-cases each character on its own: `A`–`Z` become `a`–`z`, everything else stays. |
| `Text.Trim` | src/components/AliceChatBot.tsx:103-105 | `trim()` removes exactly a leading and a trailing whitespace run. The result is empty exactly when the input is whitespace only. Otherwise it starts and ends with a non-space. |
| `Text.TrimIdempotent` | src/components/AliceChatBot.tsx:105 | Trimming an already trimmed message changes nothing. |
| `Text.Includes` | src/components/AliceChatBot.tsx:74 | `s.includes(w)` is true exactly when `w` occurs at some index of `s`. |
| `Text.RunEnd` | src/components/AliceChatBot.tsx:52 | A greedy `\s+` or `[^\s]+` ends where the run of that character class ends: every character before the end is in the class, and the one at the end is not (or it is the end of the text). |
| `Text.RunEndIgnoresCase` | src/components/AliceChatBot.tsx:52 | Lower-casing the text moves no run boundary. |
| `Text.DecimalRoundTrip` | src/components/DeploymentInterface.tsx:85 | Reading back the decimal rendering `${i + 1}` of a natural gives that natural. |
| `Text.DecimalInjective` | src/components/DeploymentInterface.tsx:85 | Distinct naturals render differently. |
| `Command.ParseDeploymentCommand` | src/components/AliceChatBot.tsx:51-61 | On success, branch and environment are both non-empty and contain no whitespace. |
| `Command.MatchAt` | src/components/AliceChatBot.tsx:52-53 | A match the engine reports at a start position starts at that position. |
| `Command.FindFrom` | src/components/AliceChatBot.tsx:53 | The reported match is at the first start position, from `from` on, where the engine matches. No earlier position matches. No match is reported only when no position matches. |
| `Command.MatchAtSound` | src/components/AliceChatBot.tsx:52 | The engine's match is a match of the pattern. Its environment word runs up to whitespace or the end of the text. |
| `Command.MatchAtComplete` | src/components/AliceChatBot.tsx:52 | Any way the pattern can match at a position is found there by the engine. It has the same `deploy`, branch and `to` boundaries, and an environment word at least as long. |
| `Command.MatchableAtIff` | src/components/AliceChatBot.tsx:52-53 | The engine matches at a position exactly when the pattern can match there. |
| `Command.ParseSucceedsIffMatchable` | src/components/AliceChatBot.tsx:52-60 | The parser returns a command exactly when some substring matches, ignoring case: `deploy`, whitespace, a non-space run, whitespace, `to`, whitespace, a non-space run. |
| `Command.ParseIsLeftmostMaximal` | src/components/AliceChatBot.tsx:52-57 | The returned pair is the leftmost match's groups, sliced from the original text. The branch is the whole word after `deploy`. The environment is the whole word after `to`. The pattern matches at no earlier start. |
| `Command.ParseIgnoresCase` | src/components/AliceChatBot.tsx:52-53 | Parsing the lower-cased text succeeds exactly when parsing the original does, and yields the lower-cased groups. So case matters only for the keywords, and the groups keep the user's casing. |
| `Command.PatternAtIgnoresCase` | src/components/AliceChatBot.tsx:52 | The pattern matches the lower-cased text with the same split exactly when it matches the original. |
| `Command.MatchAtIgnoresCase` | src/components/AliceChatBot.tsx:52-53 | The engine finds the same match in the lower-cased text. |
| `Command.FindFromIgnoresCase` | src/components/AliceChatBot.tsx:53 | The leftmost search finds the same match in the lower-cased text. |
| `Command.NoDeployWordNoCommand` | src/components/AliceChatBot.tsx:52 | A message in which `deploy` does not occur, in any casing, is not a command. |
| `Command.ParseGreetingExample` | src/components/AliceChatBot.tsx:24 | The greeting's example `Deploy feature-auth to staging-3` parses to `feature-auth` and `staging-3`. |
| `Chat.GenerateResponse` | src/components/AliceChatBot.tsx:63-100 | The reply is a deployment acknowledgement exactly when `onDeploy` was called. |
| `Chat.DeployCallbackExactlyOnce` | src/components/AliceChatBot.tsx:67-71 | A parsed command wins over every keyword rule. `onDeploy` is called exactly once, with the parsed pair, when the message parses, and never otherwise. |
| `Chat.ReplyIsFirstFiringRule` | src/components/AliceChatBot.tsx:74-99 | Without a command, the reply is that of the first rule, in the order help/how, status/deployment, environment/staging, branch, thanks/thank you, hello/hi, with a keyword occurring in the lower-cased message. The default reply is given exactly when no rule fires. |
| `Chat.ReplyIgnoresCase` | src/components/AliceChatBot.tsx:64-96 | Without a command, the reply to a message equals the reply to its lower-cased form. |
| `Chat.RulesFireByIncludes` | src/components/AliceChatBot.tsx:74-96 | Each rule of the table fires exactly when one of the source's `includes` tests for it succeeds. |
| `Chat.HowInsideShow` | src/components/AliceChatBot.tsx:74-76 | Keywords are tested as substrings, not words: `Show me` gets the help reply because `how` occurs inside `show`. |
| `Chat.SetInput` | src/components/AliceChatBot.tsx:218 | Typing replaces the input box's text and leaves the log, the typing indicator and the pending replies alone. |
| `Chat.TypeThenSend` | src/components/AliceChatBot.tsx:102-108 | Typing a text and pressing send adds the trimmed text to the log and to the pending replies, or adds nothing when the text is blank, whatever the box held before. |
| `Chat.HandleSend` | src/components/AliceChatBot.tsx:102-110 | Whitespace-only input changes nothing. Otherwise exactly one user message, the non-empty trimmed text, is appended after the unchanged earlier messages. The box is cleared, the typing indicator is shown, and a reply to the trimmed text is scheduled. |
| `Chat.ReplyFires` | src/components/AliceChatBot.tsx:111-115 | One scheduled reply is delivered. Exactly one assistant message, the reply to that pending text, is appended after the unchanged earlier messages. The typing indicator is cleared. That text leaves the pending multiset. The `onDeploy` calls are those of that reply. |
| `Chat.ExchangeAppendsTwo` | src/components/AliceChatBot.tsx:102-116 | Sending a non-blank message, then receiving its reply, appends exactly the trimmed message and the reply to it, with earlier messages unchanged and in order. Replies to earlier messages may still be pending; they stay pending. A blank message adds nothing. |
| `Wizard.StagingNames` | src/components/DeploymentInterface.tsx:85 | `Array.from({ length: k }, (_, i) => staging-${i + 1})` has `k` entries, the `i`-th being `staging-(i+1)`. |
| `Wizard.EnvironmentCatalogue` | src/components/DeploymentInterface.tsx:84-87 | The environment list is `staging-1` to `staging-14` followed by `ubt`: 15 entries, pairwise distinct. |
| `Wizard.EnvironmentsSpelledOut` | src/components/DeploymentInterface.tsx:84-87 | The same list, written out literally. |
| `Wizard.SetStatus` | src/components/DeploymentInterface.tsx:99 | Setting one step's status keeps every id and name and leaves every other step as it was. |
| `Wizard.ResetSteps` | src/components/DeploymentInterface.tsx:124 | The reset map keeps ids and names and makes every step pending. |
| `Wizard.Finish` | src/components/DeploymentInterface.tsx:109-120 | The end of a deployment puts exactly one entry in front of the captured log list, which keeps its order. The entry is by the current user, for the captured branch and environment, with status success. `isDeploying` is cleared and one reset is scheduled. Nothing else changes. |
| `Wizard.HandleDeploy` | src/components/DeploymentInterface.tsx:89-100 | With an empty branch or environment nothing changes. Otherwise the wizard is deploying, with progress 0, on the steps tab, and only the first step changed, now running. The captured run records the selection and the current log list. Nothing else changes. With an empty step list the deployment finishes at once. |
| `Wizard.StepTimer` | src/components/DeploymentInterface.tsx:98-120 | Step `i` becomes completed. Progress becomes `(i + 1) / n * 100`. Then either step `i + 1` runs, or, after the last step, exactly the success entry is prepended to the captured logs, `isDeploying` is cleared and the reset is scheduled. Nothing else changes. |
| `Wizard.ResetTimer` | src/components/DeploymentInterface.tsx:122-126 | The reset makes every step pending, keeps ids and names, sets progress to 0, and changes nothing else. In particular it touches neither the logs nor a deployment in flight. |
| `Wizard.HandleRelease` | src/components/DeploymentInterface.tsx:129-132 | Release leaves the wizard unlocked with an empty reason and changes nothing else. |
| `Wizard.PreFill` | src/components/DeploymentInterface.tsx:388-392 | The chat pre-fill sets branch and environment verbatim and switches to the deploy tab. Nothing else changes. |
| `Wizard.PercentBounds` | src/components/DeploymentInterface.tsx:106 | Progress stays between 0 and 100. It is 0 with no step done and 100 with all steps done. |
| `Wizard.PercentIncreases` | src/components/DeploymentInterface.tsx:106 | Progress strictly increases from one completed step to the next and is exactly 100 after the last. |
| `Wizard.FiveStepPercents` | src/components/DeploymentInterface.tsx:38-44 | With the five fixed steps, progress after `k` steps is exactly `20k`. |
| `Wizard.InitialInv` | src/components/DeploymentInterface.tsx:29-71 | The initial state satisfies the wizard invariant. |
| `Wizard.NextKeepsInv` | src/components/DeploymentInterface.tsx:89-132 | Every enabled event keeps the invariant. The invariant says: <br>• The steps keep their five ids and names. <br>• `isDeploying` holds exactly while a deployment is in flight. <br>• During a run, earlier steps are completed, the current one is running and later ones are untouched. <br>• The captured log list is the current one. <br>• Progress is 0, 100 or the current step's percentage. <br>• Steps are all pending when idle with no reset scheduled. <br>• The wizard is never locked. |
| `Wizard.DeployKeepsInv` | src/components/DeploymentInterface.tsx:89-100 | Starting a deployment keeps the invariant. |
| `Wizard.StepTimerKeepsInv` | src/components/DeploymentInterface.tsx:98-120 | A step timer keeps the invariant. |
| `Wizard.ResetKeepsInv` | src/components/DeploymentInterface.tsx:122-126 | A reset keeps the invariant. |
| `Wizard.Next` | src/components/DeploymentInterface.tsx:178-277 | A picker or tab event sets its own field to exactly the value picked, a catalogue entry, and changes nothing else. Only the release button touches the lock. The history changes only at a deploy click or a step timer. Only the deploy click starts a deployment. |
| `Wizard.DeploymentStarts` | src/components/DeploymentInterface.tsx:92-100 | A deploy click in the idle wizard starts a run at step 0. Step 0 is running and the rest are as they were shown. The screen shows the run's steps with progress 0 on the steps tab. |
| `Wizard.DeploymentAdvances` | src/components/DeploymentInterface.tsx:98-106 | The step timer is due, and it takes the run from step `i` to step `i + 1`. Earlier steps are completed. Later ones are as the idle wizard showed them before the click: pending, or completed for a deploy clicked before the previous run's reset fired. The screen again shows the run's steps with progress `(i + 1) / n * 100`, whatever a stale reset did to it before. |
| `Wizard.OtherEventsKeepInFlight` | src/components/DeploymentInterface.tsx:97-126 | Every other enabled event leaves a run in flight at its step, with its selection and captured logs. This covers the pickers, the tabs, the chat pre-fill and a stale reset of the previous run. A stale reset only blanks the screen: all steps pending, progress 0. |
| `Wizard.DeploymentFinishes` | src/components/DeploymentInterface.tsx:98-120 | The last step timer of a run in flight puts exactly the success entry for the clicked selection in front of the history. All steps are completed, progress is 100, `isDeploying` is cleared and the reset is scheduled. |
| `Wizard.InFlightAlongTrace` | src/components/DeploymentInterface.tsx:97-126 | Along any sequence of enabled events, a run in flight is at the step given by the number of step timers so far. |
| `Wizard.DeploymentInProgress` | src/components/DeploymentInterface.tsx:97-107 | After a deploy click and any sequence of enabled events holding `k` step timers, `k` below the step count, the run is at step `k`. The steps before it are completed. The ones after it are as the idle wizard showed them before the click. That is pending, or completed when the deploy was clicked before the previous run's reset fired, a reset that then fires during the run. The selection and the log list are those of the click. |
| `Wizard.DeploymentCompletes` | src/components/DeploymentInterface.tsx:97-120 | After a deploy click, any sequence of enabled events holding all but one step timer, and the last step timer: exactly one success entry naming the clicked branch and environment is in front of the earlier entries, which keep their order. Every step is completed, progress is 100, and `isDeploying` is cleared. Resets, picker changes and chat pre-fills may come in between. |
| `Wizard.DeploymentResets` | src/components/DeploymentInterface.tsx:122-126 | With no reset outstanding at the click, and whatever other events come in between, the reset scheduled by the deployment is the only one. It restores the steps shown before the click, all pending with ids and names unchanged, and sets progress to 0. |
| `Wizard.NeverLocked` | src/components/DeploymentInterface.tsx:34-35 | In every reachable state the wizard is unlocked with no reason, and the release event is never enabled. |
| `Wizard.PreFillIsUnchecked` | src/components/DeploymentInterface.tsx:388-392 | The pre-fill accepts a branch and an environment that are in neither catalogue. |
| `Wizard.PreFillDuringRun` | src/components/DeploymentInterface.tsx:110-118 | A pre-fill while a deployment is in flight does not change what the deployment logs: the closure's captured selection is used. |
| `Dashboard.ChatDeployPreFillsWizard` | src/components/DeploymentInterface.tsx:388-392 | A delivered chat reply pre-fills the wizard with the parsed branch and environment, and switches it to the deploy tab, exactly when the message parses as a command. Otherwise the wizard is untouched. |
| `Dashboard.GreetingExample` | src/components/AliceChatBot.tsx:67-71 | The greeting's example command, once its reply is delivered, leaves the wizard on `feature-auth` / `staging-3`, as typed. |

## Left out

- `src/server/index.ts`, the socket relay that spawns `ssh` and forwards its output. It is process, socket and HTTP plumbing with no pure logic.
- Timer durations (2 s per step, 3 s reset, 1–2 s random reply delay). Expiries are explicit transitions. Reply order among several pending chat replies is left free.
- `Date.now()` ids, `new Date()` timestamps and locale formatting. They are the opaque `Stamp` parameter. Chat message ids and timestamps are dropped.
- Floating-point progress and the `Math.round` display. Progress is exact, which agrees with IEEE doubles for five steps.
- Rendering: JSX, icons, CSS classes, status icon helpers, scrolling, the chat window's open/closed toggle.
- The Enter-key handler, which only calls the send handler. The send button's `disabled` state, which `HandleSend`'s own blank guard makes irrelevant.
- React state batching. The in-place mutation of step objects shared with the previous state array. Steps are immutable values here.
- `toLowerCase` on non-ASCII text (for example the Kelvin sign lowering to `k`, relevant to `thank you`). Only ASCII letters are lower-cased. For the regular expression this is exact: without the `u` flag, `/i` never matches a non-ASCII character against an ASCII letter.
- Strings are sequences of Unicode scalar values, not UTF-16 code units. Every character the code tests for is in the Basic Multilingual Plane.
- `Wizard.HandleDeploy`: requires that no deployment is in flight. The source's handler has no such check, but it is only reachable through the deploy button, which is disabled while deploying (line 277). `Wizard.Enabled` states that guard for `Wizard.Next`. Two overlapping runs of the handler are not modelled.
