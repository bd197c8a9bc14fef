/**
 * `ContentGenerator.generate_content` without its network call: the reply of
 * the text-generation backend is stripped, freed of markdown code fences and
 * handed to a JSON parser, which is a parameter here.
 */
module Content {
  import opened Wrappers
  import opened PyStr

  /** The opening fence the backend writes before a JSON block. */
  const JsonFence: string := "```json\n"
  /** A bare fence. */
  const Fence: string := "```"

  /**
   * `reply.strip().replace('```json\n', '').replace('```', '')`: the cleaned
   * reply never contains a code fence.
   */
  function CleanReply(reply: string): (r: string)
    ensures !Occurs(r, Fence)
  {
    RemoveFenceLeavesNone(RemoveAll(Strip(reply), JsonFence));
    RemoveAll(RemoveAll(Strip(reply), JsonFence), Fence)
  }

  /** The two fields the backend is asked for, as decoded from its JSON object. */
  datatype Fields = Fields(caption: string, imagePrompt: string)

  /** The `(caption, image_prompt)` pair; `(None, None)` on any failure. */
  datatype Generated = Generated(caption: Option<string>, imagePrompt: Option<string>)

  /**
   * `generate_content`: `reply` is the backend's message text (`None` when the
   * call or the message fails); `parse` stands for `json.loads` followed by
   * reading the two keys (`None` on a parse error or a missing key).
   */
  function GenerateContent(reply: Option<string>, parse: string -> Option<Fields>): (g: Generated)
    ensures g.caption.Some? <==> g.imagePrompt.Some?
    ensures g.caption.Some? <==> reply.Some? && parse(CleanReply(reply.value)).Some?
    ensures g.caption.Some? ==> parse(CleanReply(reply.value)) == Some(Fields(g.caption.value, g.imagePrompt.value))
  {
    match reply
    case None => Generated(None, None)
    case Some(text) =>
      match parse(CleanReply(text))
      case None => Generated(None, None)
      case Some(f) => Generated(Some(f.caption), Some(f.imagePrompt))
  }

  // ---------------------------------------------------------------- lemmas

  /** `t` begins with two backticks. */
  predicate TwoTicks(t: string)
  {
    |t| >= 2 && t[0] == '`' && t[1] == '`'
  }

  /**
   * Removing every "```" left to right leaves none behind: a removal can only
   * join two runs of backticks if the scan had skipped a backtick that
   * already began a fence.
   */
  lemma {:induction false} RemoveFenceLeavesNone(s: string)
    ensures !Occurs(RemoveAll(s, Fence), Fence)
    ensures !TwoTicks(s) ==> !TwoTicks(RemoveAll(s, Fence))
    ensures |s| > 0 && s[0] != '`' ==> |RemoveAll(s, Fence)| > 0 && RemoveAll(s, Fence)[0] == s[0]
    decreases |s|
  {
    var r := RemoveAll(s, Fence);
    if |s| < 3 {
      assert r == s;
    } else if s[..3] == Fence {
      RemoveFenceLeavesNone(s[3..]);
    } else {
      var rest := RemoveAll(s[1..], Fence);
      RemoveFenceLeavesNone(s[1..]);
      assert r == [s[0]] + rest;
      if s[0] == '`' {
        assert !TwoTicks(s[1..]) by {
          assert s[..3] == [s[0], s[1], s[2]];
        }
      }
      PrependKeepsFenceFree(s[0], rest);
    }
  }

  /**
   * One character in front of a fence-free text creates no fence unless it is
   * a backtick and the text begins with two more.
   */
  lemma PrependKeepsFenceFree(c: char, rest: string)
    requires !Occurs(rest, Fence)
    requires c == '`' ==> !TwoTicks(rest)
    ensures !Occurs([c] + rest, Fence)
  {
    var r := [c] + rest;
    assert Fence[0] == '`' && Fence[1] == '`' && Fence[2] == '`';
    forall i: nat | i + 3 <= |r|
      ensures !StartsAt(r, Fence, i)
    {
      if i > 0 {
        assert !StartsAt(rest, Fence, i - 1);
        var j :| 0 <= j < 3 && rest[i - 1 + j] != Fence[j];
        assert r[i + j] == rest[i - 1 + j];
      } else {
        assert r[0] == c && r[1] == rest[0] && r[2] == rest[1];
      }
    }
  }

  /** On a text without fences, cleaning is just `strip()`. */
  lemma CleanFenceFree(t: string)
    requires !Occurs(t, Fence)
    ensures CleanReply(t) == Strip(t)
  {
    var z := Strip(t);
    StripKeepsAbsence(t, Fence);
    assert JsonFence[0..3] == Fence;
    AbsentPart(z, JsonFence, 0, 3);
    RemoveAllAbsent(z, JsonFence);
    RemoveAllAbsent(z, Fence);
  }

  /**
   * Cleaning twice equals cleaning once and then stripping, so cleaning is
   * idempotent from its second application on.
   */
  lemma CleanReplyTwice(reply: string)
    ensures CleanReply(CleanReply(reply)) == Strip(CleanReply(reply))
    ensures CleanReply(CleanReply(CleanReply(reply))) == CleanReply(CleanReply(reply))
  {
    var y := CleanReply(reply);
    CleanFenceFree(y);
    StripKeepsAbsence(y, Fence);
    CleanFenceFree(Strip(y));
    StripIdempotent(y);
  }

  /**
   * Cleaning is not idempotent in general: the strip runs before the fences
   * are removed, so whitespace behind a removed fence survives one round.
   */
  lemma CleanReplyNotIdempotent()
    ensures CleanReply("``` {}") == " {}"
    ensures CleanReply(" {}") == "{}"
  {
    CleanFenced("``` {}");
    CleanSpaced(" {}");
  }

  lemma CleanFenced(s: string)
    requires s == "``` {}"
    ensures CleanReply(s) == " {}"
  {
    StripTrimmed(s);
    assert RemoveAll(s, JsonFence) == s;
    assert StartsAt(s, Fence, 0);
    RemoveAllLeading(s, Fence);
    assert s[3..] == " {}";
    AbsentByPairs(" {}", Fence);
    RemoveAllAbsent(" {}", Fence);
  }

  lemma CleanSpaced(s: string)
    requires s == " {}"
    ensures CleanReply(s) == "{}"
  {
    StripExact(s, 1, 3);
    assert s[1..3] == "{}";
  }

  /**
   * A JSON body wrapped in a "```json" fence cleans to the body itself, while
   * the same body without the fence cleans to its stripped form.
   */
  lemma FencedReplyUnwraps(body: string)
    requires forall i :: 0 <= i < |body| ==> body[i] != '`'
    ensures CleanReply(JsonFence + body + Fence) == body
    ensures CleanReply(body) == Strip(body)
  {
    FencedJsonFenceRemoved(body);
    FencedFenceRemoved(body);
    BacktickFreeHasNoFence(body);
    CleanFenceFree(body);
  }

  /** Stripping the fenced reply changes nothing, and the first replace drops the opening fence. */
  lemma FencedJsonFenceRemoved(body: string)
    requires forall i :: 0 <= i < |body| ==> body[i] != '`'
    ensures RemoveAll(Strip(JsonFence + body + Fence), JsonFence) == body + Fence
  {
    var s := JsonFence + body + Fence;
    StripTrimmed(s);
    assert StartsAt(s, JsonFence, 0);
    RemoveAllLeading(s, JsonFence);
    assert s[|JsonFence|..] == body + Fence;
    RemoveAllKeepsFreePrefix(body, Fence, JsonFence);
    assert RemoveAll(Fence, JsonFence) == Fence;
  }

  /** The second replace drops the closing fence. */
  lemma FencedFenceRemoved(body: string)
    requires forall i :: 0 <= i < |body| ==> body[i] != '`'
    ensures RemoveAll(body + Fence, Fence) == body
  {
    RemoveAllKeepsFreePrefix(body, Fence, Fence);
    assert StartsAt(Fence, Fence, 0);
    RemoveAllLeading(Fence, Fence);
    assert RemoveAll(Fence, Fence) == [];
    assert body + [] == body;
  }

  /** A text without backticks has no fence. */
  lemma BacktickFreeHasNoFence(body: string)
    requires forall i :: 0 <= i < |body| ==> body[i] != '`'
    ensures !Occurs(body, Fence)
  {
    forall k: nat | k + 3 <= |body|
      ensures !StartsAt(body, Fence, k)
    {
      assert body[k] != Fence[0];
    }
  }

  /**
   * A fenced reply yields the same caption and image prompt as the bare JSON
   * body, for any parser that reads the body and its stripped form alike.
   * `json.loads` does when the body's edge whitespace is JSON whitespace
   * (space, tab, line feed, carriage return), as in the usual "{...}\n".
   */
  lemma FencedReplyParsesAlike(body: string, parse: string -> Option<Fields>)
    requires forall i :: 0 <= i < |body| ==> body[i] != '`'
    requires parse(body) == parse(Strip(body))
    ensures GenerateContent(Some(JsonFence + body + Fence), parse) == GenerateContent(Some(body), parse)
  {
    FencedReplyUnwraps(body);
  }
}
