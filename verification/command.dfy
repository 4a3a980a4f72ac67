/**
 The chat assistant's deployment-command parser: an unanchored,
 case-insensitive search for `deploy <ws>+ <word> <ws>+ to <ws>+ <word>`
 whose two words are the branch and the target environment.

 `PatternAt` is the declarative reading of the regular expression (some
 split of a substring into the pattern's parts); `MatchAt` and `FindFrom`
 are the backtracking engine's deterministic outcome (greedy runs, the
 leftmost start). The lemmas at the end connect the two.
 */
module Command {
  import opened Wrappers
  import opened Text

  const DeployWord: string := "deploy"
  const ToWord: string := "to"

  /** The two captured groups. */
  datatype DeployCommand = DeployCommand(branch: string, environment: string)

  /** Group boundaries of one match: `deploy` at `at`, the branch is
      `[branchStart, branchEnd)`, `to` at `toAt`, the environment is
      `[envStart, envEnd)`. */
  datatype Match = Match(at: nat, branchStart: nat, branchEnd: nat, toAt: nat, envStart: nat, envEnd: nat)

  /** `w` (lower-case) appears at `i`, ignoring ASCII case. */
  predicate KeywordAt(s: string, w: string, i: nat) {
    i + |w| <= |s| && Lower(s[i..i + |w|]) == w
  }

  /** `s[p..v]` matches the pattern with the groups `s[q..r]` and `s[u..v]`
      and the word `to` at `t`: one way the regular expression can match. */
  ghost predicate PatternAt(s: string, p: nat, q: nat, r: nat, t: nat, u: nat, v: nat) {
    && p + |DeployWord| < q < r < t
    && t + |ToWord| < u < v <= |s|
    && KeywordAt(s, DeployWord, p)
    && AllSpace(s, p + |DeployWord|, q)
    && NoSpace(s, q, r)
    && AllSpace(s, r, t)
    && KeywordAt(s, ToWord, t)
    && AllSpace(s, t + |ToWord|, u)
    && NoSpace(s, u, v)
  }

  /** The regular expression can match starting at `p`. */
  ghost predicate MatchableAt(s: string, p: nat) {
    exists q: nat, r: nat, t: nat, u: nat, v: nat :: PatternAt(s, p, q, r, t, u, v)
  }

  /** The regular expression matches somewhere in `s`. */
  ghost predicate Matchable(s: string) {
    exists p: nat :: MatchableAt(s, p)
  }

  /** The match the engine reports when it tries start position `p`: each
      `\s+` and `[^\s]+` takes its maximal run. */
  function MatchAt(s: string, p: nat): (m: Option<Match>)
    ensures m.Some? ==> m.value.at == p
  {
    if !KeywordAt(s, DeployWord, p) then None
    else
      var q := RunEnd(s, p + |DeployWord|, true);
      if q == p + |DeployWord| then None
      else
        var r := RunEnd(s, q, false);
        if r == q then None
        else
          var t := RunEnd(s, r, true);
          if t == r || !KeywordAt(s, ToWord, t) then None
          else
            var u := RunEnd(s, t + |ToWord|, true);
            if u == t + |ToWord| then None
            else
              var v := RunEnd(s, u, false);
              if v == u then None
              else Some(Match(p, q, r, t, u, v))
  }

  /** Tries the start positions `from`, `from + 1`, ... in order and reports
      the first one at which the engine matches. */
  function FindFrom(s: string, from: nat): (m: Option<Match>)
    requires from <= |s|
    ensures m.Some? ==> from <= m.value.at <= |s| && MatchAt(s, m.value.at) == m
    ensures m.Some? ==> forall p :: from <= p < m.value.at ==> MatchAt(s, p).None?
    ensures m.None? ==> forall p :: from <= p <= |s| ==> MatchAt(s, p).None?
    decreases |s| - from
  {
    match MatchAt(s, from)
    case Some(found) => Some(found)
    case None => if from == |s| then None else FindFrom(s, from + 1)
  }

  /** `parseDeploymentCommand`: the two groups of the leftmost match, or `None`. */
  function ParseDeploymentCommand(s: string): (c: Option<DeployCommand>)
    ensures c.Some? ==> |c.value.branch| > 0 && NoSpace(c.value.branch, 0, |c.value.branch|)
    ensures c.Some? ==> |c.value.environment| > 0 && NoSpace(c.value.environment, 0, |c.value.environment|)
  {
    match FindFrom(s, 0)
    case None => None
    case Some(m) =>
      MatchAtSound(s, m.at);
      Some(DeployCommand(s[m.branchStart..m.branchEnd], s[m.envStart..m.envEnd]))
  }

  // ---------------------------------------------------------------------------
  // The engine's match is a pattern match, the only one at its start
  // position up to the length of the environment word, which is maximal.

  lemma MatchAtSound(s: string, p: nat)
    requires MatchAt(s, p).Some?
    ensures var m := MatchAt(s, p).value;
      && PatternAt(s, m.at, m.branchStart, m.branchEnd, m.toAt, m.envStart, m.envEnd)
      && (m.envEnd == |s| || IsSpace(s[m.envEnd]))
  {
  }

  /** Any way the pattern matches at `p` is found by the engine at `p`, with
      the same group boundaries except that the environment word may be
      longer. */
  lemma MatchAtComplete(s: string, p: nat, q: nat, r: nat, t: nat, u: nat, v: nat)
    requires PatternAt(s, p, q, r, t, u, v)
    ensures MatchAt(s, p).Some?
    ensures var m := MatchAt(s, p).value;
      m.branchStart == q && m.branchEnd == r && m.toAt == t && m.envStart == u && v <= m.envEnd
  {
    assert !IsSpace(s[q]);
    assert RunEnd(s, p + |DeployWord|, true) == q;
    assert IsSpace(s[r]);
    assert RunEnd(s, q, false) == r;
    assert Lower(s[t..t + 2])[0] == LowerChar(s[t]) == 't';
    assert !IsSpace(s[t]);
    assert RunEnd(s, r, true) == t;
    assert !IsSpace(s[u]);
    assert RunEnd(s, t + |ToWord|, true) == u;
  }

  lemma MatchableAtIff(s: string, p: nat)
    ensures MatchableAt(s, p) <==> MatchAt(s, p).Some?
  {
    if MatchAt(s, p).Some? {
      MatchAtSound(s, p);
    }
    if MatchableAt(s, p) {
      var q: nat, r: nat, t: nat, u: nat, v: nat :| PatternAt(s, p, q, r, t, u, v);
      MatchAtComplete(s, p, q, r, t, u, v);
    }
  }

  // ---------------------------------------------------------------------------
  // Properties of the parser

  /** The parser succeeds exactly when the pattern matches somewhere in the
      text. */
  lemma ParseSucceedsIffMatchable(s: string)
    ensures ParseDeploymentCommand(s).Some? <==> Matchable(s)
  {
    if ParseDeploymentCommand(s).Some? {
      var m := FindFrom(s, 0).value;
      MatchableAtIff(s, m.at);
    }
    if Matchable(s) {
      var p: nat :| MatchableAt(s, p);
      MatchableAtIff(s, p);
      assert p <= |s|;
    }
  }

  /** On success the result is the leftmost match: the pattern matches at the
      reported start `p` with the branch and environment as its groups, the
      environment word runs up to whitespace or the end of the text (the
      branch is delimited by whitespace by the pattern itself), and the
      pattern matches at no earlier start. */
  lemma ParseIsLeftmostMaximal(s: string)
    requires ParseDeploymentCommand(s).Some?
    ensures exists p: nat, q: nat, r: nat, t: nat, u: nat, v: nat ::
      && PatternAt(s, p, q, r, t, u, v)
      && ParseDeploymentCommand(s).value == DeployCommand(s[q..r], s[u..v])
      && (v == |s| || IsSpace(s[v]))
      && forall p': nat :: p' < p ==> !MatchableAt(s, p')
  {
    var m := FindFrom(s, 0).value;
    MatchAtSound(s, m.at);
    forall p': nat | p' < m.at
      ensures !MatchableAt(s, p')
    {
      MatchableAtIff(s, p');
    }
    assert PatternAt(s, m.at, m.branchStart, m.branchEnd, m.toAt, m.envStart, m.envEnd);
  }

  /** A message in which `deploy` does not occur, in any casing, is never a
      deployment command. */
  lemma NoDeployWordNoCommand(s: string)
    requires !Substring(DeployWord, Lower(s))
    ensures ParseDeploymentCommand(s).None?
  {
    if ParseDeploymentCommand(s).Some? {
      var p := FindFrom(s, 0).value.at;
      LowerSlice(s, p, p + |DeployWord|);
      assert OccursAt(Lower(s), DeployWord, p);
    }
  }

  /** Case only affects the keywords: parsing the lower-cased text succeeds
      exactly when parsing the original does, and yields the lower-cased
      groups. So the groups the parser returns keep the user's casing. */
  lemma ParseIgnoresCase(s: string)
    ensures ParseDeploymentCommand(Lower(s)).Some? <==> ParseDeploymentCommand(s).Some?
    ensures ParseDeploymentCommand(s).Some? ==>
      var c := ParseDeploymentCommand(s).value;
      ParseDeploymentCommand(Lower(s)) == Some(DeployCommand(Lower(c.branch), Lower(c.environment)))
  {
    FindFromIgnoresCase(s, 0);
    if FindFrom(s, 0).Some? {
      var m := FindFrom(s, 0).value;
      MatchAtSound(s, m.at);
      LowerSlice(s, m.branchStart, m.branchEnd);
      LowerSlice(s, m.envStart, m.envEnd);
    }
  }

  lemma KeywordAtIgnoresCase(s: string, w: string, i: nat)
    ensures KeywordAt(Lower(s), w, i) == KeywordAt(s, w, i)
  {
    if i + |w| <= |s| {
      LowerSlice(s, i, i + |w|);
      LowerIdempotent(s[i..i + |w|]);
    }
  }

  lemma PatternAtIgnoresCase(s: string, p: nat, q: nat, r: nat, t: nat, u: nat, v: nat)
    ensures PatternAt(Lower(s), p, q, r, t, u, v) <==> PatternAt(s, p, q, r, t, u, v)
  {
    var ls := Lower(s);
    forall k | 0 <= k < |s|
      ensures IsSpace(ls[k]) == IsSpace(s[k])
    {
      LowerCharKeepsSpace(s[k]);
    }
    KeywordAtIgnoresCase(s, DeployWord, p);
    KeywordAtIgnoresCase(s, ToWord, t);
  }

  lemma MatchAtIgnoresCase(s: string, p: nat)
    ensures MatchAt(Lower(s), p) == MatchAt(s, p)
  {
    var ls := Lower(s);
    if MatchAt(s, p).Some? {
      var m := MatchAt(s, p).value;
      MatchAtSound(s, p);
      PatternAtIgnoresCase(s, p, m.branchStart, m.branchEnd, m.toAt, m.envStart, m.envEnd);
      MatchAtComplete(ls, p, m.branchStart, m.branchEnd, m.toAt, m.envStart, m.envEnd);
    }
    if MatchAt(ls, p).Some? {
      var m := MatchAt(ls, p).value;
      MatchAtSound(ls, p);
      PatternAtIgnoresCase(s, p, m.branchStart, m.branchEnd, m.toAt, m.envStart, m.envEnd);
      MatchAtComplete(s, p, m.branchStart, m.branchEnd, m.toAt, m.envStart, m.envEnd);
    }
  }

  lemma {:induction false} FindFromIgnoresCase(s: string, from: nat)
    requires from <= |s|
    ensures FindFrom(Lower(s), from) == FindFrom(s, from)
    decreases |s| - from
  {
    MatchAtIgnoresCase(s, from);
    if MatchAt(s, from).None? && from < |s| {
      FindFromIgnoresCase(s, from + 1);
    }
  }

  /** The command suggested in the assistant's greeting, with a capital
      letter. */
  const GreetingCommand: string := "Deploy feature-auth to staging-3"

  lemma GreetingGroups()
    ensures GreetingCommand[7..19] == "feature-auth" && GreetingCommand[23..32] == "staging-3"
  {
    var deploy, branch, to, env := "Deploy ", "feature-auth", " to ", "staging-3";
    assert GreetingCommand == deploy + branch + to + env;
    assert (deploy + branch + to + env)[|deploy|..|deploy| + |branch|] == branch;
    assert (deploy + branch + to + env)[|deploy + branch + to|..] == env;
  }

  lemma GreetingKeywords()
    ensures KeywordAt(GreetingCommand, DeployWord, 0) && KeywordAt(GreetingCommand, ToWord, 20)
  {
    var s := GreetingCommand;
    assert s[0..6] == "Deploy";
    assert LowerChar('D') == 'd';
    assert Lower("Deploy") == "deploy";
    assert s[20..22] == "to";
    assert Lower("to") == "to";
  }

  /** Parsing the greeting's command returns its groups as typed. */
  lemma ParseGreetingExample()
    ensures ParseDeploymentCommand(GreetingCommand) == Some(DeployCommand("feature-auth", "staging-3"))
  {
    GreetingGroups();
    GreetingKeywords();
    assert PatternAt(GreetingCommand, 0, 7, 19, 20, 23, 32);
    MatchAtComplete(GreetingCommand, 0, 7, 19, 20, 23, 32);
    assert FindFrom(GreetingCommand, 0) == MatchAt(GreetingCommand, 0);
  }
}
