/**
 * `InstagramBot` without its account client: the sequencing of
 * `create_ai_post` over two abstract generator results, and the dispatch of a
 * classified intent to a bot operation in `process_natural_command`.
 */
module Bot {
  import opened Wrappers
  import opened PyStr
  import opened Classifier
  import opened Content

  /** Python truthiness of an optional string: `None` and `""` are false. */
  predicate Truthy(v: Option<string>)
  {
    v.Some? && |v.value| > 0
  }

  /** The `(success, image_path, caption)` triple of `create_ai_post`. */
  datatype PostResult = PostResult(success: bool, imagePath: Option<string>, caption: Option<string>)

  /** `(False, None, None)`. */
  const Failed: PostResult := PostResult(false, None, None)

  /** A run of `create_ai_post`: its result and the prompts it sent to the image generator. */
  datatype PostRun = PostRun(result: PostResult, imageRequests: seq<string>)

  /**
   * `create_ai_post`: generate caption and image prompt, give up unless both
   * are non-empty, then generate the image and give up unless a path comes
   * back. `generate` and `image` stand for the two generator calls.
   */
  function CreateAiPost(prompt: string, generate: string -> Generated, image: string -> Option<string>): (run: PostRun)
    ensures var g := generate(prompt);
      run.result.success <==> Truthy(g.caption) && Truthy(g.imagePrompt) && Truthy(image(g.imagePrompt.value))
    ensures !run.result.success ==> run.result == Failed
    ensures run.result.success ==>
      && Truthy(run.result.imagePath) && Truthy(run.result.caption)
      && run.result.caption == generate(prompt).caption
      && run.result.imagePath == image(generate(prompt).imagePrompt.value)
    ensures |run.imageRequests| <= 1
    ensures var g := generate(prompt);
      run.imageRequests == [] <==> !(Truthy(g.caption) && Truthy(g.imagePrompt))
    ensures run.imageRequests != [] ==> run.imageRequests[0] == generate(prompt).imagePrompt.value
  {
    var g := generate(prompt);
    if !Truthy(g.caption) || !Truthy(g.imagePrompt) then PostRun(Failed, [])
    else
      var path := image(g.imagePrompt.value);
      if !Truthy(path) then PostRun(Failed, [g.imagePrompt.value])
      else PostRun(PostResult(true, path, g.caption), [g.imagePrompt.value])
  }

  /** The bot operations a natural-language command can trigger. */
  datatype BotOp =
    | CreatePost(prompt: string)
    | SendDm(username: string, message: string)
    | LikePost(postUrl: string)
    | CommentOnPost(postUrl: string, comment: string)
    | FollowUser(username: string)
    | UnfollowUser(username: string)

  /** The operation `process_natural_command` calls for an intent, with its arguments in call order. */
  function Dispatch(intent: Intent): (op: BotOp)
    ensures intent.Post? ==> IntentOf(op) == Post(intent.caption, intent.caption)
    ensures !intent.Post? ==> IntentOf(op) == intent
  {
    match intent
    case Post(caption, _) => CreatePost(caption)
    case Message(username, message) => SendDm(username, message)
    case Like(url) => LikePost(url)
    case Comment(url, text) => CommentOnPost(url, text)
    case Follow(username) => FollowUser(username)
    case Unfollow(username) => UnfollowUser(username)
  }

  /** The intent an operation was dispatched from, for the intents the classifier produces. */
  function IntentOf(op: BotOp): Intent
  {
    match op
    case CreatePost(prompt) => Post(prompt, prompt)
    case SendDm(username, message) => Message(username, message)
    case LikePost(url) => Like(url)
    case CommentOnPost(url, text) => Comment(url, text)
    case FollowUser(username) => Follow(username)
    case UnfollowUser(username) => Unfollow(username)
  }

  /**
   * `process_natural_command` up to the bot call: classify, give up on `None`,
   * otherwise name the operation to run.
   */
  function PlanCommand(command: string): (op: Option<BotOp>)
    ensures op.None? <==> ProcessCommand(command).None?
    ensures op.Some? ==> IntentOf(op.value) == ProcessCommand(command).value
  {
    match ProcessCommand(command)
    case None => None
    case Some(intent) =>
      PostIsWholePrompt(command);
      DispatchRoundTrip(intent);
      Some(Dispatch(intent))
  }

  /** `PlanCommand` over the classifier with the intended rule order (unfollow before follow). */
  function PlanCommandCorrected(command: string): (op: Option<BotOp>)
    ensures op.None? <==> ProcessCommandUnfollowFirst(command).None?
    ensures op.Some? ==> IntentOf(op.value) == ProcessCommandUnfollowFirst(command).value
  {
    match ProcessCommandUnfollowFirst(command)
    case None => None
    case Some(intent) =>
      CorrectedPostIsWholePrompt(command);
      DispatchRoundTrip(intent);
      Some(Dispatch(intent))
  }

  // ---------------------------------------------------------------- lemmas

  /** A post command creates a post from the whole command text. */
  lemma PlanPostUsesCommand(command: string)
    requires PlanCommand(command).Some? && PlanCommand(command).value.CreatePost?
    ensures PlanCommand(command).value == CreatePost(command)
  {
  }

  /** No command ever leads to an unfollow call. */
  lemma PlanNeverUnfollows(command: string)
    ensures PlanCommand(command).Some? ==> !PlanCommand(command).value.UnfollowUser?
  {
    NeverUnfollow(command);
    var c := ProcessCommand(command);
    if c.Some? {
      DispatchUnfollow(c.value);
      assert PlanCommand(command) == Some(Dispatch(c.value));
    }
  }

  /** The unfollow call is dispatched for exactly the unfollow intents. */
  lemma DispatchUnfollow(intent: Intent)
    ensures Dispatch(intent).UnfollowUser? <==> intent.Unfollow?
  {
  }

  /**
   * Dispatch loses nothing: the intent can be read back from the operation,
   * for every intent whose post caption is its image prompt (all the
   * classifier produces).
   */
  lemma DispatchRoundTrip(intent: Intent)
    requires intent.Post? ==> intent.caption == intent.imagePrompt
    ensures IntentOf(Dispatch(intent)) == intent
  {
  }

  /** Distinct classifier intents lead to distinct operations. */
  lemma DispatchInjective(i: Intent, j: Intent)
    requires i.Post? ==> i.caption == i.imagePrompt
    requires j.Post? ==> j.caption == j.imagePrompt
    ensures Dispatch(i) == Dispatch(j) <==> i == j
  {
    DispatchRoundTrip(i);
    DispatchRoundTrip(j);
  }

  /**
   * With the intended rule order, a command that reaches the unfollow test
   * leads to the unfollow call for the text after the first "unfollow".
   */
  lemma CorrectedPlanUnfollows(command: string, k: nat)
    requires SelectedUnfollowFirst(UnfollowRule, Lower(command)) && IsFirst(command, "unfollow", k)
    ensures PlanCommandCorrected(command) == Some(UnfollowUser(Strip(command[k + 8..])))
  {
    UnfollowFirstGivesUnfollow(command, k);
    var c := ProcessCommandUnfollowFirst(command);
    assert c == Some(Unfollow(Strip(command[k + 8..])));
    assert PlanCommandCorrected(command) == Some(Dispatch(c.value));
  }
}
