# Instagram bot command core, in Dafny

This project models the part of the Instagram automation bot that turns free
text into actions. The model covers three pieces:

- **the command classifier** `AIAssistant.process_command`. Its ordered keyword
  rules are tested on the lowered prompt. The first rule that fires decides
  the intent. Extraction then splits the original prompt case-sensitively, at
  the leftmost occurrence of the keyword.
- **the reply cleaning of `ContentGenerator.generate_content`**. The
  text-generation backend's reply is stripped, its markdown fences are removed,
  and it goes to the JSON parser.
- **the sequencing of `InstagramBot.create_ai_post`** and the dispatch of a
  classified intent in `process_natural_command`.

The Python string operations the code relies on are defined over
`seq<char>` in module `PyStr`, each with its own contract:

- `in` is `Contains`, with the reference predicate `Occurs`.
- `split(sep, 1)` is `Split1`.
- `replace(pat, "")` is `RemoveAll`.
- `strip()` is `Strip`, with Python's full whitespace set.
- `lower()` is `Lower`.

Modules:

| module | file | contents |
|---|---|---|
| `Wrappers` | wrappers.dfy | `Option` |
| `PyStr` | pystr.dfy | Python string operations and their lemmas |
| `Classifier` | classifier.dfy | `Intent`, `ProcessCommand`, the rule list as a specification, the corrected rule order |
| `Content` | content.dfy | `CleanReply`, `GenerateContent`, fence lemmas |
| `Bot` | bot.dfy | `CreateAiPost`, `BotOp`, `Dispatch`, `PlanCommand` |
| `Examples` | examples.dfy | concrete commands and what they classify to |

Calls into the network are parameters:

- the backend reply is an `Option<string>`;
- `json.loads` plus the key lookups is a function `string -> Option<Fields>`;
- the two generators of `create_ai_post` are functions.

A Python exception that the code catches and turns into `None` or
`(False, None, None)` is an `Option`/`Failed` result here.

The program itself shows what the unfollow branch is for. `process_command`
has a separate unfollow branch (instagram_bot.py:115-126), and the
interactive menu offers an "Unfollow User" action (app.py:195). Yet the code
follows "bob" on "unfollow bob", because the follow rule is tested first and
"follow" is a substring of "unfollow". The model follows the code:
`Examples.UnfollowBobIsFollow` proves what it does. The discrepancy is the
finding below.

## Model

| member | source | states |
|---|---|---|
| PyStr.Find | instagram_bot.py:42 | the result is present exactly when the pattern occurs, and it is then the leftmost occurrence |
| PyStr.Contains | instagram_bot.py:42 | Python's `in`: true exactly when the pattern occurs somewhere in the text |
| PyStr.Split1 | instagram_bot.py:45 | `split(sep, 1)` gives one part (the whole text) exactly when `sep` is absent, otherwise two parts that rebuild the text around the leftmost `sep` |
| PyStr.SplitAtFirst | instagram_bot.py:45 | splitting at the first occurrence at `k` gives the text before `k` and the text after the separator |
| PyStr.Strip | instagram_bot.py:46-47 | `strip()` keeps a contiguous middle slice, drops only whitespace, and leaves no whitespace at either end |
| PyStr.StripIdempotent | instagram_bot.py:46-47 | stripping twice is stripping once |
| PyStr.StripExact | instagram_bot.py:46-47 | a text with whitespace exactly outside `[i, j)` strips to that slice |
| PyStr.Lower | instagram_bot.py:39 | the modelled `lower()` keeps the length of the text |
| PyStr.OccursInLower | instagram_bot.py:39-42 | a lower case keyword occurring in the prompt still occurs in the lowered prompt |
| PyStr.RemoveAllAbsent | instagram_bot.py:46 | `replace(pat, "")` leaves a text without `pat` unchanged |
| PyStr.RemoveAllAtFirst | instagram_bot.py:46 | `replace(pat, "")` keeps the text before the first occurrence, drops that occurrence and goes on with the rest; with `RemoveAllAbsent` this is `"".join(s.split(pat))` |
| PyStr.RemoveAllKeepsFreePrefix | instagram_bot.py:46 | a prefix that cannot take part in any match survives removal unchanged |
| PyStr.RemoveAll | instagram_bot.py:46 | `replace(pat, "")` never lengthens the text; what it removes is stated by `RemoveAllAbsent`, `RemoveAllAtFirst` and `RemoveAllKeepsFreePrefix` |
| PyStr.StripKeepsAbsence | instagram_bot.py:154 | stripping cannot create an occurrence of a pattern |
| Classifier.TextAfter | instagram_bot.py:72 | `prompt.split(kw, 1)[1].strip()` fails exactly when `kw` is absent, and is otherwise the stripped text after the first `kw` |
| Classifier.ParseMessage | instagram_bot.py:45-47 | the message branch fails (the `IndexError` on `parts[1]`) exactly when the prompt has no case-sensitive "to", and otherwise yields a message; its fields are stated by `MessageExtraction` |
| Classifier.ParseLike | instagram_bot.py:72 | the like branch fails exactly when the prompt has no case-sensitive "like", and otherwise yields a like; the URL is stated by `LikeExtraction` |
| Classifier.ParseComment | instagram_bot.py:86-88 | the comment branch fails whenever the prompt has no case-sensitive "comment", and otherwise can only yield a comment; the fields are stated by `CommentExtraction` |
| Classifier.CommentOn | instagram_bot.py:86-88 | the second split of the comment branch fails exactly when the stripped rest has no "on", and otherwise yields a comment; the fields are stated by `CommentOnAt` |
| Classifier.ParseFollow | instagram_bot.py:103 | the follow branch fails exactly when the prompt has no case-sensitive "follow", and otherwise yields a follow; the username is stated by `FollowExtraction` |
| Classifier.ParseUnfollow | instagram_bot.py:117 | the unfollow branch fails exactly when the prompt has no case-sensitive "unfollow", and otherwise yields an unfollow; the username is stated by `UnfollowExtraction` |
| Classifier.FirstRule | instagram_bot.py:39-130 | the branch that runs is the first rule, in source order, whose keyword test passes on the lowered prompt; the final `else` runs exactly when no keyword test passes |
| Classifier.Apply | instagram_bot.py:42-126 | each branch can only produce its own action, and the post branch always succeeds with the whole prompt |
| Classifier.ProcessCommand | instagram_bot.py:34-134 | every returned intent has the action of the first rule whose keyword test passes on the lowered prompt |
| Classifier.FiresBeforeIsRankOrder | instagram_bot.py:42-126 | "an earlier test passes" means exactly that a rule placed higher in the `if`/`elif` chain fires |
| Classifier.NoneFiresMeansNoRule | instagram_bot.py:128-130 | the final `else` is reached exactly when no rule's keyword test passes |
| Classifier.PostIsWholePrompt | instagram_bot.py:60-67 | a classified post always has the whole prompt as caption and image prompt |
| Classifier.CorrectedPostIsWholePrompt | instagram_bot.py:60-67 | the same holds with the corrected rule order |
| Classifier.FirstMatchWins | instagram_bot.py:34-134 | the first rule whose keyword test passes on the lowered prompt decides the result, whatever later rules would say |
| Classifier.NoKeywordNoIntent | instagram_bot.py:128-130 | with no keyword in the lowered prompt the classifier returns `None` |
| Classifier.MessageExtraction | instagram_bot.py:42-57 | the username is the stripped text after the first case-sensitive "to"; the message is the stripped text before it, with every lower case "send" removed |
| Classifier.PostKeepsPrompt | instagram_bot.py:60-67 | a selected post rule carries the whole unmodified prompt as both caption and image prompt |
| Classifier.LikeExtraction | instagram_bot.py:70-81 | the URL is the stripped text after the first case-sensitive "like" |
| Classifier.CommentExtraction | instagram_bot.py:84-98 | the text after the first "comment" is stripped and split at its first "on"; the comment is the left part and the URL the right; with no "on" the result is `None` |
| Classifier.CommentOnAt | instagram_bot.py:86-88 | the second split cuts the stripped rest at its first "on": the comment is the stripped text before it, the URL the stripped text after it |
| Classifier.FollowExtraction | instagram_bot.py:101-112 | the username is the stripped text after the first "follow" |
| Classifier.UnfollowExtraction | instagram_bot.py:115-126 | the username is the stripped text after the first "unfollow" |
| Classifier.UnfollowContainsFollow | instagram_bot.py:101-115 | every text containing "unfollow" contains "follow" |
| Classifier.UnfollowNeverSelected | instagram_bot.py:101-126 | the unfollow rule is never the first rule to fire |
| Classifier.NeverUnfollow | instagram_bot.py:101-126 | no prompt is ever classified as an unfollow |
| Classifier.UnfollowReadAsFollow | instagram_bot.py:101-112 | a prompt containing "unfollow" that reaches the follow test becomes a follow of the text after the first "follow" |
| Classifier.FirstRuleUnfollowFirst | instagram_bot.py:101-126 | with unfollow tested before follow, the branch that runs is the first rule in that order whose test passes; none runs exactly when no test passes |
| Classifier.ProcessCommandUnfollowFirst | instagram_bot.py:101-126 | with the corrected order, every returned intent has the action of the first rule in that order that fires |
| Classifier.UnfollowFirstGivesUnfollow | instagram_bot.py:101-126 | with unfollow tested before follow, a prompt reaching that test becomes an unfollow of the text after the first "unfollow" |
| Classifier.UnfollowFirstAgrees | instagram_bot.py:34-134 | on prompts without "unfollow", the corrected order classifies exactly as the original |
| Examples.MessageExample | instagram_bot.py:42-57 | "send hello there to alice" is a message "hello there" to "alice" |
| Examples.UnfollowBobIsFollow | instagram_bot.py:101-112 | "unfollow bob" is classified as a follow of "bob" |
| Examples.UnfollowBobCorrected | instagram_bot.py:115-126 | with the corrected order, "unfollow bob" is an unfollow of "bob" |
| Examples.CapitalSendSurvives | instagram_bot.py:42-57 | "Send photo to bob" splits inside "photo" and keeps the capital "Send", giving a message "Send pho" to "to bob" |
| Examples.CapitalLikeFails | instagram_bot.py:70-81 | "Like p/1" passes the lowered keyword test but has no case-sensitive "like", so it gives `None` |
| Examples.CommentExample | instagram_bot.py:84-98 | "comment nice on p/1" is a comment "nice" on "p/1" |
| Examples.UnknownCommand | instagram_bot.py:128-130 | a prompt with no keyword gives `None` |
| Content.GenerateContent | instagram_bot.py:138-162 | caption and image prompt are both present or both absent; they are present exactly when the reply exists and the cleaned reply parses, and they are then the parsed fields |
| Content.CleanReply | instagram_bot.py:154-155 | the stripped reply with every "```json\n" and then every "```" removed never contains a code fence |
| Content.RemoveFenceLeavesNone | instagram_bot.py:155 | removing every "```" left to right leaves no "```" behind |
| Content.PrependKeepsFenceFree | instagram_bot.py:155 | one character in front of a fence-free text makes a fence only when it is a backtick and the text begins with two more |
| Content.CleanFenceFree | instagram_bot.py:154-155 | on a reply without fences, cleaning is just `strip()` |
| Content.CleanReplyTwice | instagram_bot.py:154-155 | cleaning twice is cleaning once and then stripping, and cleaning is idempotent from the second application on |
| Content.CleanReplyNotIdempotent | instagram_bot.py:154-155 | one cleaning is not always a fixed point: "``` {}" cleans to " {}", which cleans to "{}" |
| Content.FencedReplyUnwraps | instagram_bot.py:154-155 | a body without backticks wrapped in a "```json" fence cleans to the body itself |
| Content.FencedReplyParsesAlike | instagram_bot.py:154-158 | a reply wrapped in a "```json" fence yields the same caption and image prompt as its bare body, for any body without backticks and any parser that reads the body and its stripped form alike; `json.loads` does when the body's edge whitespace is JSON whitespace (space, tab, line feed, carriage return), as in the usual "{...}\n" body |
| Bot.CreateAiPost | instagram_bot.py:286-301 | success holds exactly when caption, image prompt and image path are all non-empty; every failure is `(False, None, None)`; a success carries the generated caption and image path; the image generator is asked at most once, only after content succeeded, and with the generated image prompt |
| Bot.PlanCommand | instagram_bot.py:250-282 | a command leads to no operation exactly when it is not classified, and the operation's intent is the classified one |
| Bot.Dispatch | instagram_bot.py:264-275 | the chosen call gives the intent back: a non-post intent unchanged, a post as a post whose image prompt is its caption |
| Bot.PlanPostUsesCommand | instagram_bot.py:264-265 | a post command creates a post from the whole command text |
| Bot.PlanCommandCorrected | instagram_bot.py:250-282 | as `PlanCommand`, over the classifier with the corrected rule order |
| Bot.CorrectedPlanUnfollows | instagram_bot.py:274-275 | with the corrected order, a command that reaches the unfollow test leads to the unfollow call for the text after the first "unfollow" |
| Bot.PlanNeverUnfollows | instagram_bot.py:274-275 | no command ever reaches the unfollow call |
| Bot.DispatchUnfollow | instagram_bot.py:264-275 | the unfollow call is chosen for exactly the unfollow intents |
| Bot.DispatchRoundTrip | instagram_bot.py:264-275 | the intent can be read back from the dispatched operation |
| Bot.DispatchInjective | instagram_bot.py:264-275 | distinct classifier intents are dispatched to distinct operations |

## Left out

- The account client (instagrapi). `send_dm`, `like_post`, `comment_on_post`, `follow_user` and `unfollow_user` are left out; they are network calls, and `Dispatch` names the call and its arguments instead.
- Login, logout, session files, the settings file and temporary image files are left out. They are I/O.
- The text-generation call and `json.loads` are parameters of `GenerateContent`. `json.loads` may also return non-string values for the two keys; the model only has string fields.
- `generate_image` (URL quoting, the HTTP fetch, the image download) is a parameter of `CreateAiPost`.
- app.py, the interactive menu, logging, console output and `asyncio` are not part of this model.
- PyStr.Lower: maps only ASCII A-Z and the Kelvin sign U+212A, and leaves every other character alone; its contract states only that the length is kept. Python also lowers other letters, e.g. U+0130 to "i" plus U+0307, which changes the length. No such mapping changes a keyword test: the only ASCII letter any of them produces is the "i" of U+0130, which is always followed by U+0307; U+0307 occurs in no keyword and no keyword ends in "i", so that "i" can never complete an occurrence, and every other lowered character is not ASCII.
- The outer `try/except` of `process_command` and `process_natural_command` returns `None`/`False` on an unexpected exception. The model has no such exceptions: every failing index is an explicit `None`.
- `process_natural_command` returns `create_ai_post`'s tuple as its own result, and a non-empty tuple is always truthy. The model stops at the chosen operation (`PlanCommand`) and does not model that truthiness.
- The `else: Unknown action` branch of `process_natural_command` cannot be taken, because the classifier only produces the six actions. `BotOp` has no constructor for it.
- PyStr.RemoveAll: its own contract only bounds the length. What it removes is stated by the lemmas `RemoveAllAbsent`, `RemoveAllAtFirst`, `RemoveAllKeepsFreePrefix` and `Content.RemoveFenceLeavesNone`.

## Findings

| source | as written | input that shows it | evidently intended | confidence | as-written member | corrected member |
|---|---|---|---|---|---|---|
| instagram_bot.py:101-126 | the follow test runs before the unfollow test, and "follow" is a substring of "unfollow", so the unfollow branch is unreachable | "unfollow bob" gives a follow of "bob" | "unfollow bob" unfollows "bob", as the separate unfollow branch (instagram_bot.py:115-126) and the "Unfollow User" menu action (app.py:195) show | high; not executed | Classifier.NeverUnfollow | Classifier.UnfollowFirstGivesUnfollow |

`Classifier.ProcessCommand` models the code as written, and
`Bot.PlanCommand` uses it. `Classifier.ProcessCommandUnfollowFirst` is the
corrected rule order, and `Bot.PlanCommandCorrected` dispatches its result;
`Bot.CorrectedPlanUnfollows` proves that the corrected plan reaches the
unfollow call. `Examples.UnfollowBobIsFollow` shows the discrepancy on a concrete
input, and `Examples.UnfollowBobCorrected` shows the corrected behaviour on
the same input.
