/**
 * Concrete classifications, each derived from the general lemmas: the command
 * shapes each rule parses, and the inputs that show the classifier's
 * quirks (case-sensitive splitting, keywords found inside words, the
 * unreachable unfollow rule). Each example is assembled from small steps so
 * that every step reasons about one literal at a time.
 */
module Examples {
  import opened Wrappers
  import opened PyStr
  import opened Classifier

  /** Stripping a single leading space off a text without edge whitespace. */
  lemma StripLeadingSpace(u: string, t: string)
    requires |t| > 0 && !IsSpace(t[0]) && !IsSpace(t[|t| - 1])
    requires u == " " + t
    ensures Strip(u) == t
  {
    StripExact(u, 1, |u|);
    assert u[1..|u|] == t;
  }

  // ---------------------------------------------------------------- message

  /** "send hello there to alice": the message "hello there" to "alice". */
  lemma MessageExample()
    ensures ProcessCommand("send hello there to alice") == Some(Message("alice", "hello there"))
  {
    MessageExampleRule("send hello there to alice");
    MessageExampleSplit("send hello there to alice");
    MessageExampleFields("send hello there to alice");
  }

  lemma MessageExampleRule(p: string)
    requires p == "send hello there to alice"
    ensures ProcessCommand(p) == ParseMessage(p)
  {
    LowerIdentity(p);
    assert StartsAt(p, "send", 0) && StartsAt(p, "to", 17);
    FirstMatchWins(p, MessageRule);
  }

  lemma MessageExampleSplit(p: string)
    requires p == "send hello there to alice"
    ensures ParseMessage(p) == Some(Message(Strip(p[19..]), Strip(RemoveAll(p[..17], "send"))))
  {
    assert StartsAt(p, "to", 17);
    FirstByPairs(p, "to", 17);
    MessageExtraction(p, 17);
  }

  lemma MessageExampleFields(p: string)
    requires p == "send hello there to alice"
    ensures Strip(p[19..]) == "alice" && Strip(RemoveAll(p[..17], "send")) == "hello there"
  {
    assert p[19..] == " alice";
    assert p[..17] == "send hello there ";
    StripLeadingSpace(p[19..], "alice");
    MessageExampleBody("send hello there ");
  }

  lemma MessageExampleBody(t: string)
    requires t == "send hello there "
    ensures Strip(RemoveAll(t, "send")) == "hello there"
  {
    MessageExampleRemoval(t, " hello there ");
    StripTrimmedBody(" hello there ");
  }

  lemma StripTrimmedBody(u: string)
    requires u == " hello there "
    ensures Strip(u) == "hello there"
  {
    StripExact(u, 1, 12);
    assert u[1..12] == "hello there";
  }

  lemma MessageExampleRemoval(t: string, u: string)
    requires t == "send hello there " && u == " hello there "
    ensures RemoveAll(t, "send") == u
  {
    assert StartsAt(t, "send", 0);
    RemoveAllLeading(t, "send");
    assert t[4..] == u;
    MessageExampleRest(u);
  }

  lemma MessageExampleRest(u: string)
    requires u == " hello there "
    ensures RemoveAll(u, "send") == u
  {
    AbsentByPairs(u, "send");
    RemoveAllAbsent(u, "send");
  }

  // ---------------------------------------------------------------- "unfollow bob"

  /** "unfollow bob" is a follow of "bob": the unfollow rule is never reached. */
  lemma UnfollowBobIsFollow()
    ensures ProcessCommand("unfollow bob") == Some(Follow("bob"))
  {
    UnfollowBobRule("unfollow bob");
    UnfollowBobSplit("unfollow bob");
    UnfollowBobName("unfollow bob");
  }

  lemma UnfollowBobRule(p: string)
    requires p == "unfollow bob"
    ensures ProcessCommand(p) == ParseFollow(p)
  {
    UnfollowBobKeywords(p);
    FirstMatchWins(p, FollowRule);
  }

  /** "unfollow bob" contains "unfollow" and "follow" and none of the earlier keywords. */
  lemma UnfollowBobKeywords(p: string)
    requires p == "unfollow bob"
    ensures Lower(p) == p
    ensures !FiresBefore(FollowRule, p) && StartsAt(p, "unfollow", 0) && StartsAt(p, "follow", 2)
  {
    LowerIdentity(p);
    AbsentByPairs(p, "send");
    AbsentByPairs(p, "post");
    AbsentByPairs(p, "create");
    AbsentByPairs(p, "like");
    AbsentByPairs(p, "comment");
    assert StartsAt(p, "unfollow", 0);
    assert StartsAt(p, "follow", 2);
  }

  lemma UnfollowBobSplit(p: string)
    requires p == "unfollow bob"
    ensures ParseFollow(p) == Some(Follow(Strip(p[8..])))
  {
    assert StartsAt(p, "follow", 2);
    FirstByPairs(p, "follow", 2);
    FollowExtraction(p, 2);
  }

  lemma UnfollowBobName(p: string)
    requires p == "unfollow bob"
    ensures Strip(p[8..]) == "bob"
  {
    assert p[8..] == " bob";
    StripLeadingSpace(p[8..], "bob");
  }

  /** With the unfollow test moved first, "unfollow bob" is an unfollow. */
  lemma UnfollowBobCorrected()
    ensures ProcessCommandUnfollowFirst("unfollow bob") == Some(Unfollow("bob"))
  {
    UnfollowBobCorrectedRule("unfollow bob");
    UnfollowBobName("unfollow bob");
  }

  lemma UnfollowBobCorrectedRule(p: string)
    requires p == "unfollow bob"
    ensures ProcessCommandUnfollowFirst(p) == Some(Unfollow(Strip(p[8..])))
  {
    UnfollowBobKeywords(p);
    UnfollowFirstGivesUnfollow(p, 0);
  }

  // ---------------------------------------------------------------- "Send photo to bob"

  /**
   * Only lower case "send" is removed, so "Send" stays in the message, and the
   * split point is the "to" inside "photo".
   */
  lemma CapitalSendSurvives()
    ensures ProcessCommand("Send photo to bob") == Some(Message("to bob", "Send pho"))
  {
    SendPhotoRule("Send photo to bob", "send photo to bob");
    SendPhotoSplit("Send photo to bob");
    SendPhotoFields("Send photo to bob");
  }

  lemma SendPhotoRule(p: string, q: string)
    requires p == "Send photo to bob" && q == "send photo to bob"
    ensures ProcessCommand(p) == ParseMessage(p)
  {
    assert Lower(p) == q by {
      assert forall i :: 0 <= i < |p| ==> Lower(p)[i] == q[i];
    }
    assert StartsAt(q, "send", 0) && StartsAt(q, "to", 8);
    FirstMatchWins(p, MessageRule);
  }

  lemma SendPhotoSplit(p: string)
    requires p == "Send photo to bob"
    ensures ParseMessage(p) == Some(Message(Strip(p[10..]), Strip(RemoveAll(p[..8], "send"))))
  {
    assert StartsAt(p, "to", 8);
    FirstByPairs(p, "to", 8);
    MessageExtraction(p, 8);
  }

  lemma SendPhotoFields(p: string)
    requires p == "Send photo to bob"
    ensures Strip(p[10..]) == "to bob" && Strip(RemoveAll(p[..8], "send")) == "Send pho"
  {
    assert p[10..] == " to bob";
    assert p[..8] == "Send pho";
    StripLeadingSpace(p[10..], "to bob");
    SendPhotoBody("Send pho");
  }

  lemma SendPhotoBody(t: string)
    requires t == "Send pho"
    ensures Strip(RemoveAll(t, "send")) == t
  {
    AbsentByPairs(t, "send");
    RemoveAllAbsent(t, "send");
    StripTrimmed(t);
  }

  // ---------------------------------------------------------------- "Like p/1"

  /** "Like" passes the lowered keyword test, but the case-sensitive split fails: `None`. */
  lemma CapitalLikeFails()
    ensures ProcessCommand("Like p/1") == None
  {
    CapitalLikeRule("Like p/1", "like p/1");
    CapitalLikeSplit("Like p/1");
  }

  lemma CapitalLikeSplit(p: string)
    requires p == "Like p/1"
    ensures ParseLike(p) == None
  {
    AbsentByPairs(p, "like");
  }

  lemma CapitalLikeRule(p: string, q: string)
    requires p == "Like p/1" && q == "like p/1"
    ensures ProcessCommand(p) == ParseLike(p)
  {
    assert Lower(p) == q by {
      assert forall i :: 0 <= i < |p| ==> Lower(p)[i] == q[i];
    }
    AbsentByPairs(q, "send");
    AbsentByPairs(q, "post");
    AbsentByPairs(q, "create");
    assert StartsAt(q, "like", 0);
    FirstMatchWins(p, LikeRule);
  }

  // ---------------------------------------------------------------- comment

  /** "comment nice on p/1": the comment "nice" on the post "p/1". */
  lemma CommentExample()
    ensures ProcessCommand("comment nice on p/1") == Some(Comment("p/1", "nice"))
  {
    CommentExampleRule("comment nice on p/1");
    CommentExampleRest("comment nice on p/1");
    CommentExampleSplit("comment nice on p/1", "nice on p/1");
    CommentExampleOn("nice on p/1");
    CommentExampleFields("nice on p/1");
  }

  lemma CommentExampleRule(p: string)
    requires p == "comment nice on p/1"
    ensures ProcessCommand(p) == ParseComment(p)
  {
    LowerIdentity(p);
    AbsentByPairs(p, "send");
    AbsentByPairs(p, "post");
    AbsentByPairs(p, "create");
    AbsentByPairs(p, "like");
    assert StartsAt(p, "comment", 0);
    FirstMatchWins(p, CommentRule);
  }

  lemma CommentExampleRest(p: string)
    requires p == "comment nice on p/1"
    ensures Strip(p[7..]) == "nice on p/1"
  {
    assert p[7..] == " nice on p/1";
    StripLeadingSpace(p[7..], "nice on p/1");
  }

  lemma CommentExampleSplit(p: string, rest: string)
    requires p == "comment nice on p/1" && rest == "nice on p/1"
    requires Strip(p[7..]) == rest
    ensures ParseComment(p) == CommentOn(rest)
  {
    assert StartsAt(p, "comment", 0);
    assert TextAfter(p, "comment") == Some(rest);
  }

  lemma CommentExampleOn(rest: string)
    requires rest == "nice on p/1"
    ensures CommentOn(rest) == Some(Comment(Strip(rest[7..]), Strip(rest[..5])))
  {
    assert StartsAt(rest, "on", 5);
    FirstByPairs(rest, "on", 5);
    CommentOnAt(rest, 5);
  }

  lemma CommentExampleFields(rest: string)
    requires rest == "nice on p/1"
    ensures Strip(rest[7..]) == "p/1" && Strip(rest[..5]) == "nice"
  {
    assert rest[7..] == " p/1";
    assert rest[..5] == "nice ";
    StripLeadingSpace(rest[7..], "p/1");
    StripExact(rest[..5], 0, 4);
    assert rest[..5][0..4] == "nice";
  }

  // ---------------------------------------------------------------- no keyword

  /** "what's the weather" matches no rule. */
  lemma UnknownCommand()
    ensures ProcessCommand("what's the weather") == None
  {
    UnknownCommandRule("what's the weather");
  }

  lemma UnknownCommandRule(p: string)
    requires p == "what's the weather"
    ensures ProcessCommand(p) == None
  {
    LowerIdentity(p);
    UnknownCommandQuiet(p);
    NoKeywordNoIntent(p);
  }

  lemma UnknownCommandQuiet(p: string)
    requires p == "what's the weather"
    ensures NoneFires(p)
  {
    AbsentByPairs(p, "send");
    AbsentByPairs(p, "post");
    AbsentByPairs(p, "create");
    AbsentByPairs(p, "like");
    AbsentByPairs(p, "comment");
    AbsentByPairs(p, "follow");
    AbsentByPairs(p, "unfollow");
  }
}
