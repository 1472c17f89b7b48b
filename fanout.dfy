/**
 * The notification fan-out of `handle_text` in arromba_bot/__init__.py: every
 * hashtag of a message is looked up with `chat_data.get(tag, {})`, every
 * subscriber found becomes one mention, and the mentions, joined by spaces,
 * are the reply — or there is no reply when that text is empty.
 *
 * `mention_markdown(id, name)` belongs to the Telegram library; a Mention
 * stands for its call and `render` for the text it produces. Being a function
 * of the chat data, the fan-out cannot change it.
 */
module Fanout {
  import opened Dicts
  import opened Text
  import opened Subscriptions

  /** `mention_markdown(id, name)`. */
  datatype Mention = Mention(id: int, name: string)

  /** `mention_markdown(id, name) for id, name in subscribers.items()`. */
  function Tokens(s: Subscribers): (r: seq<Mention>)
    ensures |r| == |s|
    ensures forall i :: 0 <= i < |s| ==> r[i] == Mention(s[i].0, s[i].1)
  {
    seq(|s|, i requires 0 <= i < |s| => Mention(s[i].0, s[i].1))
  }

  /**
   * The flat list of mentions: hashtags in message order, and under each the
   * tag's subscribers in subscription order.
   */
  function Mentions(cd: ChatData, hashtags: seq<string>): (r: seq<Mention>)
    ensures forall k :: 0 <= k < |r| ==>
      exists i :: 0 <= i < |hashtags| && (r[k].id, r[k].name) in Subs(cd, hashtags[i])
  {
    if hashtags == [] then []
    else
      var head, rest := Tokens(Subs(cd, hashtags[0])), Mentions(cd, hashtags[1..]);
      assert forall k :: 0 <= k < |head| ==> (head[k].id, head[k].name) in Subs(cd, hashtags[0]);
      assert forall i :: 0 <= i < |hashtags[1..]| ==> hashtags[1..][i] == hashtags[i + 1];
      head + rest
  }

  /** A mention is in the list exactly when its user is subscribed, under that name, to one of the hashtags. */
  lemma {:induction false} MentionedIff(cd: ChatData, hashtags: seq<string>, m: Mention)
    ensures m in Mentions(cd, hashtags) <==>
      exists i :: 0 <= i < |hashtags| && (m.id, m.name) in Subs(cd, hashtags[i])
  {
    if hashtags != [] {
      MentionedIff(cd, hashtags[1..], m);
      var s := Subs(cd, hashtags[0]);
      assert m in Tokens(s) <==> (m.id, m.name) in s by {
        if (m.id, m.name) in s {
          var j :| 0 <= j < |s| && s[j] == (m.id, m.name);
          assert Tokens(s)[j] == m;
        }
      }
      assert forall i :: 0 < i < |hashtags| ==> hashtags[i] == hashtags[1..][i - 1];
      if exists i :: 0 <= i < |hashtags| && (m.id, m.name) in Subs(cd, hashtags[i]) {
        var i :| 0 <= i < |hashtags| && (m.id, m.name) in Subs(cd, hashtags[i]);
        if i > 0 {
          assert hashtags[1..][i - 1] == hashtags[i];
        }
      }
    }
  }

  /** Splitting the message's hashtags splits the mention list the same way. */
  lemma {:induction false} MentionsAppend(cd: ChatData, a: seq<string>, b: seq<string>)
    ensures Mentions(cd, a + b) == Mentions(cd, a) + Mentions(cd, b)
  {
    if a == [] {
      assert a + b == b;
    } else {
      assert (a + b)[0] == a[0];
      assert (a + b)[1..] == a[1..] + b;
      MentionsAppend(cd, a[1..], b);
    }
  }

  /**
   * Order of the fan-out: what comes from the hashtags before `tag`, then the
   * subscribers of `tag` in their order, then what comes from the hashtags after.
   */
  lemma MentionsAround(cd: ChatData, before: seq<string>, tag: string, after: seq<string>)
    ensures Mentions(cd, before + [tag] + after) ==
      Mentions(cd, before) + Tokens(Subs(cd, tag)) + Mentions(cd, after)
  {
    MentionsAppend(cd, before + [tag], after);
    MentionsAppend(cd, before, [tag]);
    MentionsSingle(cd, tag);
  }

  /** A message with one hashtag mentions exactly that tag's subscribers. */
  lemma MentionsSingle(cd: ChatData, tag: string)
    ensures Mentions(cd, [tag]) == Tokens(Subs(cd, tag))
  {
    assert [tag][1..] == [];
    assert Mentions(cd, [tag]) == Tokens(Subs(cd, tag)) + [];
  }

  /** A hashtag the chat has no entry for contributes nothing. */
  lemma UnknownTagSilent(cd: ChatData, before: seq<string>, tag: string, after: seq<string>)
    requires tag !in Keys(cd)
    ensures Mentions(cd, before + [tag] + after) == Mentions(cd, before + after)
  {
    MentionsAround(cd, before, tag, after);
    MentionsAppend(cd, before, after);
    assert Tokens(Subs(cd, tag)) == [];
    assert Mentions(cd, before) + [] == Mentions(cd, before);
  }

  /** The number of entries the lookups find, tag by tag. */
  function LookedUp(cd: ChatData, hashtags: seq<string>): nat {
    if hashtags == [] then 0 else |Subs(cd, hashtags[0])| + LookedUp(cd, hashtags[1..])
  }

  /** No deduplication: one mention per (hashtag, subscriber) pair. */
  lemma {:induction false} MentionCount(cd: ChatData, hashtags: seq<string>)
    ensures |Mentions(cd, hashtags)| == LookedUp(cd, hashtags)
  {
    if hashtags != [] {
      MentionCount(cd, hashtags[1..]);
    }
  }

  /** How many of the hashtags list the entry `e` among their subscribers. */
  function TagsListing(cd: ChatData, hashtags: seq<string>, e: (int, string)): nat {
    if hashtags == [] then 0
    else (if e in Subs(cd, hashtags[0]) then 1 else 0) + TagsListing(cd, hashtags[1..], e)
  }

  /**
   * A user is mentioned once for every hashtag of the message they subscribe
   * to — twice when two tags carry them, twice when a tag is repeated.
   */
  lemma {:induction false} MentionMultiplicity(cd: ChatData, hashtags: seq<string>, m: Mention)
    requires WellFormed(cd)
    ensures multiset(Mentions(cd, hashtags))[m] == TagsListing(cd, hashtags, (m.id, m.name))
  {
    if hashtags != [] {
      MentionMultiplicity(cd, hashtags[1..], m);
      var s := Subs(cd, hashtags[0]);
      assert UniqueKeys(s);
      TokensOnce(s, m);
      assert Mentions(cd, hashtags) == Tokens(s) + Mentions(cd, hashtags[1..]);
      assert multiset(Mentions(cd, hashtags)) == multiset(Tokens(s)) + multiset(Mentions(cd, hashtags[1..]));
    }
  }

  /** In a dict each entry occurs once, so each mention of its tokens does. */
  lemma {:induction false} TokensOnce(s: Subscribers, m: Mention)
    requires UniqueKeys(s)
    ensures multiset(Tokens(s))[m] == if (m.id, m.name) in s then 1 else 0
  {
    if s != [] {
      var t := s[1..];
      assert UniqueKeys(t) by {
        forall i, j | 0 <= i < j < |t| ensures t[i].0 != t[j].0 {
          assert t[i] == s[i + 1] && t[j] == s[j + 1];
        }
      }
      TokensOnce(t, m);
      assert Tokens(s) == [Mention(s[0].0, s[0].1)] + Tokens(t);
      if s[0] == (m.id, m.name) {
        assert (m.id, m.name) !in t by {
          forall j | 0 <= j < |t| ensures t[j] != (m.id, m.name) {
            assert t[j] == s[j + 1];
          }
        }
      }
      assert (m.id, m.name) in s <==> s[0] == (m.id, m.name) || (m.id, m.name) in t;
    }
  }

  /** `mention_markdown(id, name)` for every mention of the message, in order. */
  function Rendered(cd: ChatData, hashtags: seq<string>, render: Mention -> string): (r: seq<string>)
    ensures |r| == |Mentions(cd, hashtags)|
    ensures forall i :: 0 <= i < |r| ==> r[i] == render(Mentions(cd, hashtags)[i])
  {
    var ms := Mentions(cd, hashtags);
    seq(|ms|, i requires 0 <= i < |ms| => render(ms[i]))
  }

  /** Splitting the hashtags splits the rendered mentions the same way. */
  lemma RenderedAppend(cd: ChatData, a: seq<string>, b: seq<string>, render: Mention -> string)
    ensures Rendered(cd, a + b, render) == Rendered(cd, a, render) + Rendered(cd, b, render)
  {
    MentionsAppend(cd, a, b);
  }

  /**
   * `handle_text` after the hashtags are extracted: the reply text, or None when
   * `" ".join(mentions)` is empty — when there are no mentions, or a single one
   * rendered as the empty string.
   */
  function HandleText(cd: ChatData, hashtags: seq<string>, render: Mention -> string): (r: Option<string>)
    ensures var ms := Mentions(cd, hashtags);
      r.None? <==> |ms| == 0 || (|ms| == 1 && render(ms[0]) == "")
    ensures r.Some? ==> r.value != "" && |Mentions(cd, hashtags)| > 0
    ensures r.Some? ==> render(Mentions(cd, hashtags)[0]) <= r.value
  {
    var text := Join(Rendered(cd, hashtags, render));
    if text != "" then Some(text) else None
  }

  /** As `mention_markdown` never yields empty text, a reply is sent exactly when someone is mentioned. */
  lemma ReplyIffMentions(cd: ChatData, hashtags: seq<string>, render: Mention -> string)
    requires forall m :: render(m) != ""
    ensures HandleText(cd, hashtags, render).Some? <==> |Mentions(cd, hashtags)| > 0
  {
  }

  /** When rendered mentions hold no space, the words of the reply are the mentions in order. */
  lemma ReplyWords(cd: ChatData, hashtags: seq<string>, render: Mention -> string)
    requires var ms := Mentions(cd, hashtags);
      forall i :: 0 <= i < |ms| ==> render(ms[i]) != "" && ' ' !in render(ms[i])
    requires |Mentions(cd, hashtags)| > 0
    ensures HandleText(cd, hashtags, render).Some?
    ensures Split(HandleText(cd, hashtags, render).value) == Rendered(cd, hashtags, render)
  {
    SplitJoin(Rendered(cd, hashtags, render));
  }

  /**
   * Whatever the rendered mentions contain (names with spaces included), the
   * reply to hashtags `a + b` is the reply to `a`, a space, and the reply to `b`,
   * when both halves mention someone and nothing renders as the empty string.
   */
  lemma {:induction false} ReplyAppend(cd: ChatData, a: seq<string>, b: seq<string>, render: Mention -> string)
    requires |Mentions(cd, a)| > 0 && |Mentions(cd, b)| > 0
    requires var ms := Mentions(cd, a + b);
      forall i :: 0 <= i < |ms| ==> render(ms[i]) != ""
    ensures HandleText(cd, a, render).Some? && HandleText(cd, b, render).Some?
    ensures HandleText(cd, a + b, render) ==
      Some(HandleText(cd, a, render).value + " " + HandleText(cd, b, render).value)
  {
    var ms := Mentions(cd, a + b);
    MentionsAppend(cd, a, b);
    var ma, mb := Mentions(cd, a), Mentions(cd, b);
    assert ms[0] == ma[0] && ms[|ma|] == mb[0];
    assert render(ma[0]) != "" && render(mb[0]) != "";
    RenderedAppend(cd, a, b, render);
    JoinAppend(Rendered(cd, a, render), Rendered(cd, b, render));
  }

  /** A chat where #a has subscriber 1 and #b subscribers 1 and 2. */
  const ExampleChat: ChatData := [("#a", [(1, "alice")]), ("#b", [(1, "alice"), (2, "bob")])]

  /** The subscriber lookups in ExampleChat. */
  lemma ExampleTokens()
    ensures Tokens(Subs(ExampleChat, "#a")) == [Mention(1, "alice")]
    ensures Tokens(Subs(ExampleChat, "#b")) == [Mention(1, "alice"), Mention(2, "bob")]
  {
    assert Subs(ExampleChat, "#a") == [(1, "alice")];
    assert Subs(ExampleChat, "#b") == [(1, "alice"), (2, "bob")];
  }

  /**
   * The message "#a #b" in ExampleChat: user 1 is mentioned once for each tag,
   * then user 2.
   */
  lemma TwoTagsMentionTwice()
    ensures Mentions(ExampleChat, ["#a", "#b"])
      == [Mention(1, "alice"), Mention(1, "alice"), Mention(2, "bob")]
  {
    ExampleTokens();
    assert ["#a", "#b"] == ["#a"] + ["#b"];
    MentionsAppend(ExampleChat, ["#a"], ["#b"]);
    MentionsSingle(ExampleChat, "#a");
    MentionsSingle(ExampleChat, "#b");
  }
}
