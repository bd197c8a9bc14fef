/**
 * The command classifier `AIAssistant.process_command`: a free-text
 * instruction becomes an intent by ordered keyword rules, first match wins.
 * Keywords are looked for in the lowered prompt, but every split is made on
 * the original prompt, case-sensitively, at the leftmost occurrence.
 */
module Classifier {
  import opened Wrappers
  import opened PyStr

  /** The `{"action": ..., "details": {...}}` dictionary, one constructor per action. */
  datatype Intent =
    | Message(username: string, message: string)
    | Post(caption: string, imagePrompt: string)
    | Like(postUrl: string)
    | Comment(postUrl: string, commentText: string)
    | Follow(username: string)
    | Unfollow(username: string)

  /**
   * `prompt.split(kw, 1)[1].strip()`; `None` where the index raises
   * `IndexError` because `kw` does not occur case-sensitively.
   */
  function TextAfter(prompt: string, kw: string): (r: Option<string>)
    requires |kw| > 0
    ensures r.None? <==> !Occurs(prompt, kw)
    ensures forall k: nat :: IsFirst(prompt, kw, k) ==> r == Some(Strip(prompt[k + |kw|..]))
  {
    var parts := Split1(prompt, kw);
    if |parts| < 2 then None else Some(Strip(parts[1]))
  }

  /** The message rule's extraction: split once on "to", drop every lower case "send" from the left part. */
  function ParseMessage(prompt: string): (r: Option<Intent>)
    ensures r.None? <==> !Occurs(prompt, "to")
    ensures r.Some? ==> r.value.Message?
  {
    var parts := Split1(prompt, "to");
    if |parts| < 2 then None
    else Some(Message(username := Strip(parts[1]), message := Strip(RemoveAll(parts[0], "send"))))
  }

  function ParseLike(prompt: string): (r: Option<Intent>)
    ensures r.None? <==> !Occurs(prompt, "like")
    ensures r.Some? ==> r.value.Like?
  {
    match TextAfter(prompt, "like")
    case None => None
    case Some(url) => Some(Like(url))
  }

  /** Split once on "comment", strip the rest, then split that once on "on". */
  function ParseComment(prompt: string): (r: Option<Intent>)
    ensures !Occurs(prompt, "comment") ==> r.None?
    ensures r.Some? ==> r.value.Comment?
  {
    match TextAfter(prompt, "comment")
    case None => None
    case Some(rest) => CommentOn(rest)
  }

  /** The second half of the comment rule: split the stripped rest once on "on". */
  function CommentOn(rest: string): (r: Option<Intent>)
    ensures r.None? <==> !Occurs(rest, "on")
    ensures r.Some? ==> r.value.Comment?
  {
    var parts := Split1(rest, "on");
    if |parts| < 2 then None
    else Some(Comment(postUrl := Strip(parts[1]), commentText := Strip(parts[0])))
  }

  function ParseFollow(prompt: string): (r: Option<Intent>)
    ensures r.None? <==> !Occurs(prompt, "follow")
    ensures r.Some? ==> r.value.Follow?
  {
    match TextAfter(prompt, "follow")
    case None => None
    case Some(name) => Some(Follow(name))
  }

  function ParseUnfollow(prompt: string): (r: Option<Intent>)
    ensures r.None? <==> !Occurs(prompt, "unfollow")
    ensures r.Some? ==> r.value.Unfollow?
  {
    match TextAfter(prompt, "unfollow")
    case None => None
    case Some(name) => Some(Unfollow(name))
  }

  // ------------------------------------------------ the rule list

  /** The six branches of `process_command`, one per action. */
  datatype Rule = MessageRule | PostRule | LikeRule | CommentRule | FollowRule | UnfollowRule

  /** The position of a rule's keyword test in the source. */
  function Rank(rule: Rule): nat
  {
    match rule
    case MessageRule => 0
    case PostRule => 1
    case LikeRule => 2
    case CommentRule => 3
    case FollowRule => 4
    case UnfollowRule => 5
  }

  /** The keyword test guarding `rule`, evaluated on the lowered prompt. */
  ghost predicate Fires(rule: Rule, low: string)
  {
    match rule
    case MessageRule => Occurs(low, "send") && Occurs(low, "to")
    case PostRule => Occurs(low, "post") || Occurs(low, "create")
    case LikeRule => Occurs(low, "like")
    case CommentRule => Occurs(low, "comment")
    case FollowRule => Occurs(low, "follow")
    case UnfollowRule => Occurs(low, "unfollow")
  }

  /** The keyword test of some rule tested before `rule` passes. */
  ghost predicate FiresBefore(rule: Rule, low: string)
  {
    match rule
    case MessageRule => false
    case PostRule => Fires(MessageRule, low)
    case LikeRule => Fires(MessageRule, low) || Fires(PostRule, low)
    case CommentRule => Fires(MessageRule, low) || Fires(PostRule, low) || Fires(LikeRule, low)
    case FollowRule =>
      Fires(MessageRule, low) || Fires(PostRule, low) || Fires(LikeRule, low) || Fires(CommentRule, low)
    case UnfollowRule =>
      Fires(MessageRule, low) || Fires(PostRule, low) || Fires(LikeRule, low) || Fires(CommentRule, low)
      || Fires(FollowRule, low)
  }

  /** No keyword test passes. */
  ghost predicate NoneFires(low: string)
  {
    !FiresBefore(UnfollowRule, low) && !Fires(UnfollowRule, low)
  }

  /** `rule` is the first rule, in source order, whose keyword test passes. */
  ghost predicate Selected(rule: Rule, low: string)
  {
    Fires(rule, low) && !FiresBefore(rule, low)
  }

  /**
   * The `if`/`elif` chain of keyword tests on the lowered prompt: the rule
   * whose branch runs, `None` for the final `else`.
   */
  function FirstRule(low: string): (r: Option<Rule>)
    ensures r.Some? ==> Selected(r.value, low)
    ensures r.None? <==> NoneFires(low)
  {
    if Contains(low, "send") && Contains(low, "to") then Some(MessageRule)
    else if Contains(low, "post") || Contains(low, "create") then Some(PostRule)
    else if Contains(low, "like") then Some(LikeRule)
    else if Contains(low, "comment") then Some(CommentRule)
    else if Contains(low, "follow") then Some(FollowRule)
    else if Contains(low, "unfollow") then Some(UnfollowRule)
    else None
  }

  /** The `"action"` value of an intent, read as the branch that produced it. */
  function ActionOf(intent: Intent): Rule
  {
    match intent
    case Message(_, _) => MessageRule
    case Post(_, _) => PostRule
    case Like(_) => LikeRule
    case Comment(_, _) => CommentRule
    case Follow(_) => FollowRule
    case Unfollow(_) => UnfollowRule
  }

  /** The body of each branch: what it extracts from the original prompt. */
  function Apply(rule: Rule, prompt: string): (r: Option<Intent>)
    ensures r.Some? ==> ActionOf(r.value) == rule
    ensures rule == PostRule ==> r == Some(Post(prompt, prompt))
  {
    match rule
    case MessageRule => ParseMessage(prompt)
    case PostRule => Some(Post(caption := prompt, imagePrompt := prompt))
    case LikeRule => ParseLike(prompt)
    case CommentRule => ParseComment(prompt)
    case FollowRule => ParseFollow(prompt)
    case UnfollowRule => ParseUnfollow(prompt)
  }

  /**
   * `AIAssistant.process_command`: the branch the keyword tests choose runs
   * its extraction; `None` for an unrecognised or malformed command.
   */
  function ProcessCommand(prompt: string): (r: Option<Intent>)
    ensures r.Some? ==> Selected(ActionOf(r.value), Lower(prompt))
  {
    match FirstRule(Lower(prompt))
    case None => None
    case Some(rule) => Apply(rule, prompt)
  }

  // ------------------------------------------------ lemmas

  /** `FiresBefore` is the rank order: some rule of lower rank fires. */
  lemma FiresBeforeIsRankOrder(rule: Rule, low: string)
    ensures FiresBefore(rule, low) <==> exists e: Rule :: Rank(e) < Rank(rule) && Fires(e, low)
  {
    if FiresBefore(rule, low) {
      var e: Rule :| Rank(e) < Rank(rule) && Fires(e, low);
    }
  }

  /** `NoneFires` says that no rule at all fires. */
  lemma NoneFiresMeansNoRule(low: string)
    ensures NoneFires(low) <==> forall e: Rule :: !Fires(e, low)
  {
  }

  /** At most one rule is the first to fire. */
  lemma SelectedUnique(a: Rule, b: Rule, low: string)
    requires Selected(a, low) && Selected(b, low)
    ensures a == b
  {
  }

  /** A classified post always carries the whole prompt as caption and image prompt. */
  lemma PostIsWholePrompt(prompt: string)
    ensures ProcessCommand(prompt).Some? && ProcessCommand(prompt).value.Post? ==>
      ProcessCommand(prompt).value == Post(prompt, prompt)
  {
  }

  /** The first rule whose keyword test passes decides the result, whatever later rules say. */
  lemma FirstMatchWins(prompt: string, rule: Rule)
    requires Selected(rule, Lower(prompt))
    ensures ProcessCommand(prompt) == Apply(rule, prompt)
  {
    var low := Lower(prompt);
    assert FirstRule(low).Some?;
    SelectedUnique(FirstRule(low).value, rule, low);
  }

  /** With no keyword in the lowered prompt the classifier returns `None`. */
  lemma NoKeywordNoIntent(prompt: string)
    requires NoneFires(Lower(prompt))
    ensures ProcessCommand(prompt) == None
  {
  }

  /** Every text containing "unfollow" contains "follow" two characters further on. */
  lemma UnfollowContainsFollow(s: string)
    requires Occurs(s, "unfollow")
    ensures Occurs(s, "follow")
  {
    OccursOfPart(s, "unfollow", 2, 8);
    assert "unfollow"[2..8] == "follow";
  }

  /** The unfollow rule is dead code: the follow rule always fires before it. */
  lemma UnfollowNeverSelected(low: string)
    ensures !Selected(UnfollowRule, low)
  {
    if Occurs(low, "unfollow") {
      UnfollowContainsFollow(low);
    }
  }

  /** No prompt is ever classified as an unfollow. */
  lemma NeverUnfollow(prompt: string)
    ensures ProcessCommand(prompt).Some? ==> !ProcessCommand(prompt).value.Unfollow?
  {
    UnfollowNeverSelected(Lower(prompt));
  }

  /**
   * A prompt that reaches the follow test and contains "unfollow" is a follow
   * of the text after the first "follow".
   */
  lemma UnfollowReadAsFollow(prompt: string, k: nat)
    requires Selected(FollowRule, Lower(prompt)) && Occurs(Lower(prompt), "unfollow")
    requires IsFirst(prompt, "follow", k)
    ensures ProcessCommand(prompt) == Some(Follow(Strip(prompt[k + 6..])))
  {
    FirstMatchWins(prompt, FollowRule);
  }

  /**
   * The message rule: the username is the stripped text after the first
   * case-sensitive "to", the message the stripped text before it with every
   * lower case "send" removed.
   */
  lemma MessageExtraction(prompt: string, k: nat)
    requires IsFirst(prompt, "to", k)
    ensures ParseMessage(prompt) == Some(Message(Strip(prompt[k + 2..]), Strip(RemoveAll(prompt[..k], "send"))))
  {
    SplitAtFirst(prompt, "to", k);
  }

  /** The post rule keeps the whole unmodified prompt as both caption and image prompt. */
  lemma PostKeepsPrompt(prompt: string)
    requires Selected(PostRule, Lower(prompt))
    ensures ProcessCommand(prompt) == Some(Post(prompt, prompt))
  {
    FirstMatchWins(prompt, PostRule);
  }

  /** The like rule: the URL is the stripped text after the first case-sensitive "like". */
  lemma LikeExtraction(prompt: string, k: nat)
    requires IsFirst(prompt, "like", k)
    ensures ParseLike(prompt) == Some(Like(Strip(prompt[k + 4..])))
  {
  }

  /**
   * The comment rule: strip the text after the first "comment", split it at its
   * first "on" (also inside a word); comment text is the left part, URL the right.
   */
  lemma CommentExtraction(prompt: string, k: nat, rest: string)
    requires IsFirst(prompt, "comment", k) && rest == Strip(prompt[k + 7..])
    ensures !Occurs(rest, "on") ==> ParseComment(prompt) == None
    ensures forall m: nat :: IsFirst(rest, "on", m) ==>
      ParseComment(prompt) == Some(Comment(Strip(rest[m + 2..]), Strip(rest[..m])))
  {
    assert TextAfter(prompt, "comment") == Some(rest);
    assert ParseComment(prompt) == CommentOn(rest);
    forall m: nat | IsFirst(rest, "on", m)
      ensures CommentOn(rest) == Some(Comment(Strip(rest[m + 2..]), Strip(rest[..m])))
    {
      CommentOnAt(rest, m);
    }
  }

  /** The second split of the comment rule cuts at the first "on" of the stripped rest. */
  lemma CommentOnAt(rest: string, m: nat)
    requires IsFirst(rest, "on", m)
    ensures CommentOn(rest) == Some(Comment(Strip(rest[m + 2..]), Strip(rest[..m])))
  {
    SplitAtFirst(rest, "on", m);
  }

  /** The follow rule: the username is the stripped text after the first "follow". */
  lemma FollowExtraction(prompt: string, k: nat)
    requires IsFirst(prompt, "follow", k)
    ensures ParseFollow(prompt) == Some(Follow(Strip(prompt[k + 6..])))
  {
  }

  /** The unfollow rule takes the stripped text after the first "unfollow". */
  lemma UnfollowExtraction(prompt: string, k: nat)
    requires IsFirst(prompt, "unfollow", k)
    ensures ParseUnfollow(prompt) == Some(Unfollow(Strip(prompt[k + 8..])))
  {
  }

  // ------------------------------------------------ the intended rule order

  /** `FiresBefore` for the order with the unfollow test moved before the follow test. */
  ghost predicate FiresBeforeUnfollowFirst(rule: Rule, low: string)
  {
    match rule
    case UnfollowRule => FiresBefore(FollowRule, low)
    case FollowRule => FiresBefore(FollowRule, low) || Fires(UnfollowRule, low)
    case _ => FiresBefore(rule, low)
  }

  /** `rule` is the first rule, in the intended order, whose keyword test passes. */
  ghost predicate SelectedUnfollowFirst(rule: Rule, low: string)
  {
    Fires(rule, low) && !FiresBeforeUnfollowFirst(rule, low)
  }

  /** `FirstRule` with the unfollow and follow tests swapped. */
  function FirstRuleUnfollowFirst(low: string): (r: Option<Rule>)
    ensures r.Some? ==> SelectedUnfollowFirst(r.value, low)
    ensures r.None? <==> NoneFires(low)
  {
    if Contains(low, "send") && Contains(low, "to") then Some(MessageRule)
    else if Contains(low, "post") || Contains(low, "create") then Some(PostRule)
    else if Contains(low, "like") then Some(LikeRule)
    else if Contains(low, "comment") then Some(CommentRule)
    else if Contains(low, "unfollow") then Some(UnfollowRule)
    else if Contains(low, "follow") then Some(FollowRule)
    else None
  }

  /**
   * The classifier as the separate unfollow branch evidently intends it:
   * unfollow is tested before follow, everything else is as in `ProcessCommand`.
   */
  function ProcessCommandUnfollowFirst(prompt: string): (r: Option<Intent>)
    ensures r.Some? ==> SelectedUnfollowFirst(ActionOf(r.value), Lower(prompt))
  {
    match FirstRuleUnfollowFirst(Lower(prompt))
    case None => None
    case Some(rule) => Apply(rule, prompt)
  }

  /**
   * With the intended order, a prompt whose first firing rule is the unfollow
   * rule is an unfollow of the stripped text after the first "unfollow".
   */
  lemma UnfollowFirstGivesUnfollow(prompt: string, k: nat)
    requires SelectedUnfollowFirst(UnfollowRule, Lower(prompt)) && IsFirst(prompt, "unfollow", k)
    ensures ProcessCommandUnfollowFirst(prompt) == Some(Unfollow(Strip(prompt[k + 8..])))
  {
    var low := Lower(prompt);
    assert FirstRuleUnfollowFirst(low).Some?;
    assert FirstRuleUnfollowFirst(low).value == UnfollowRule;
    UnfollowExtraction(prompt, k);
  }

  /** On prompts without "unfollow" the intended order changes nothing. */
  lemma UnfollowFirstAgrees(prompt: string)
    requires !Occurs(Lower(prompt), "unfollow")
    ensures ProcessCommandUnfollowFirst(prompt) == ProcessCommand(prompt)
  {
    assert FirstRuleUnfollowFirst(Lower(prompt)) == FirstRule(Lower(prompt));
  }

  /** As `PostIsWholePrompt`, for the intended rule order. */
  lemma CorrectedPostIsWholePrompt(prompt: string)
    ensures ProcessCommandUnfollowFirst(prompt).Some? && ProcessCommandUnfollowFirst(prompt).value.Post? ==>
      ProcessCommandUnfollowFirst(prompt).value == Post(prompt, prompt)
  {
  }
}
