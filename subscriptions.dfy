/**
 * The subscription registry of one chat: its `chat_data`, a dict from tag to a
 * dict from user id to display name, and what the `/sub` and `/unsub` commands
 * do to it (`update_subscription` in arromba_bot/__init__.py).
 *
 * This module holds the value-level specification: one step of the command's
 * loop (Apply), the loop as a whole (Run) and what is proved about them. The
 * class that carries the state and runs the loop in place is in module Bot.
 */
module Subscriptions {
  import opened Dicts
  import opened Text

  /** Display names keyed by Telegram user id, in subscription order. */
  type Subscribers = Dict<int, string>

  /** One chat's `chat_data`: tag to subscribers, in the order tags were first used. */
  type ChatData = Dict<string, Subscribers>

  /** The invoking Telegram user: id, optional username and first name. */
  datatype User = User(id: int, username: Option<string>, firstName: string)

  /** What aborts a handler: a failed `assert` with its message, or `del` on a missing key. */
  datatype Error = AssertionError(message: string) | KeyError(key: int)

  datatype Result<T> = Ok(value: T) | Err(error: Error)

  const NoTagsMessage: string := "me diz pelo menos uma tag, né"
  const BadTagMessage: string := "foi mal, mas tag tem que começar com #"

  /** `chat_data.get(tag, {})`. */
  function Subs(cd: ChatData, tag: string): (r: Subscribers)
    ensures tag !in Keys(cd) ==> r == []
    ensures Get(cd, tag) == if tag in Keys(cd) then Some(r) else None
  {
    GetOr(cd, tag, [])
  }

  /** Both levels are real dicts: no tag twice, and no user twice under a tag. */
  ghost predicate WellFormed(cd: ChatData) {
    UniqueKeys(cd) && forall t :: UniqueKeys(Subs(cd, t))
  }

  /** `tag.startswith("#")`: the tag has "#" as a prefix. */
  function IsHashtag(tag: string): (r: bool)
    ensures r <==> "#" <= tag
  {
    |tag| > 0 && tag[0] == '#'
  }

  /** `user.username or user.first_name`: an absent or empty username falls back. */
  function DisplayName(user: User): (r: string)
    ensures user.username.Some? && user.username.value != "" ==> r == user.username.value
    ensures user.username.None? || user.username.value == "" ==> r == user.firstName
  {
    if user.username.Some? && user.username.value != "" then user.username.value else user.firstName
  }

  /** `"+" if status else "-"`: a one-character mark, never a space, telling the two commands apart. */
  function Prefix(status: bool): (r: string)
    ensures |r| == 1 && ' ' !in r
    ensures r == "+" <==> status
    ensures r == "-" <==> !status
  {
    if status then "+" else "-"
  }

  /** `" ".join(prefix + tag for tag in tags)`. */
  function Confirmation(tags: seq<string>, status: bool): (r: string)
    ensures |tags| > 0 ==> Prefix(status) + tags[0] <= r
  {
    Join(seq(|tags|, i requires 0 <= i < |tags| => Prefix(status) + tags[i]))
  }

  /**
   * When no tag holds a space (command arguments are split on whitespace), the
   * words of the confirmation are the tags in order, each with its prefix.
   */
  lemma ConfirmationWords(tags: seq<string>, status: bool)
    requires |tags| > 0
    requires forall i :: 0 <= i < |tags| ==> ' ' !in tags[i]
    ensures Split(Confirmation(tags, status)) == seq(|tags|, i requires 0 <= i < |tags| => Prefix(status) + tags[i])
  {
    var words := seq(|tags|, i requires 0 <= i < |tags| => Prefix(status) + tags[i]);
    forall i | 0 <= i < |words|
      ensures ' ' !in words[i]
    {
      assert words[i] == Prefix(status) + tags[i];
      assert ' ' !in Prefix(status);
    }
    SplitJoin(words);
  }

  /**
   * One iteration of the loop over the tags: `setdefault(tag, {})`, then either
   * store the user's display name or `del` the user's entry. The flag is true
   * when `del` raised; the tag created by `setdefault` is then already stored.
   */
  function Apply(cd: ChatData, tag: string, user: User, status: bool): (r: (ChatData, bool))
    ensures WellFormed(cd) ==> WellFormed(r.0)
    ensures r.1 <==> !status && user.id !in Keys(Subs(cd, tag))
    ensures Keys(r.0) == if tag in Keys(cd) then Keys(cd) else Keys(cd) + [tag]
    ensures WellFormed(cd) && status ==> Get(r.0, tag) == Some(Put(Subs(cd, tag), user.id, DisplayName(user)))
    ensures WellFormed(cd) && !status && !r.1 ==> Get(r.0, tag) == Delete(Subs(cd, tag), user.id)
    ensures r.1 ==> r.0 == SetDefault(cd, tag, []).0
    ensures WellFormed(cd) && r.1 ==> Get(r.0, tag) == Some(Subs(cd, tag))
    ensures WellFormed(cd) ==> forall t :: t != tag ==> Get(r.0, t) == Get(cd, t)
  {
    var (cd1, subscribers) := SetDefault(cd, tag, []);
    assert subscribers == Subs(cd, tag);
    SetDefaultWellFormed(cd, tag);
    if status then
      var s := Put(subscribers, user.id, DisplayName(user));
      PutWellFormed(cd1, tag, s);
      (Put(cd1, tag, s), false)
    else
      match Delete(subscribers, user.id)
      case None => (cd1, true)
      case Some(rest) =>
        PutWellFormed(cd1, tag, rest);
        (Put(cd1, tag, rest), false)
  }

  /** Storing a real subscriber dict under a tag keeps the chat data well formed. */
  lemma PutWellFormed(cd: ChatData, tag: string, s: Subscribers)
    ensures WellFormed(cd) && UniqueKeys(s) ==> WellFormed(Put(cd, tag, s))
  {
    var r := Put(cd, tag, s);
    forall t | WellFormed(cd) && UniqueKeys(s)
      ensures UniqueKeys(Subs(r, t))
    {
      if t == tag {
        assert Get(r, t) == Some(s);
      } else {
        assert Get(r, t) == Get(cd, t);
        assert Subs(r, t) == Subs(cd, t);
      }
    }
  }

  /** `setdefault(tag, {})` keeps the chat data well formed. */
  lemma SetDefaultWellFormed(cd: ChatData, tag: string)
    ensures WellFormed(cd) ==> WellFormed(SetDefault(cd, tag, []).0)
  {
    var r := SetDefault(cd, tag, []).0;
    forall t | WellFormed(cd)
      ensures UniqueKeys(Subs(r, t))
    {
      if t == tag {
        assert Subs(r, t) == Subs(cd, t);
      } else {
        assert Get(r, t) == Get(cd, t);
        assert Subs(r, t) == Subs(cd, t);
      }
    }
  }

  /** Where the loop over the tags ends: after the last tag, or at the tag whose `del` raised. */
  datatype Outcome = Completed(data: ChatData) | Raised(data: ChatData, at: nat)

  /**
   * The loop `for tag in tags` run on `cd`. A raise stops it and leaves every
   * change made so far in place: nothing is rolled back.
   */
  function Run(cd: ChatData, tags: seq<string>, user: User, status: bool): (r: Outcome)
    ensures Keys(cd) <= Keys(r.data)
    ensures r.Raised? ==> r.at < |tags|
  {
    if tags == [] then Completed(cd)
    else
      var prev := Run(cd, tags[..|tags| - 1], user, status);
      if prev.Raised? then prev
      else
        var (d, raised) := Apply(prev.data, tags[|tags| - 1], user, status);
        if raised then Raised(d, |tags| - 1) else Completed(d)
  }

  /** Whatever the outcome, the loop leaves both levels real dicts. */
  lemma {:induction false} RunWellFormed(cd: ChatData, tags: seq<string>, user: User, status: bool)
    requires WellFormed(cd)
    ensures WellFormed(Run(cd, tags, user, status).data)
  {
    if tags != [] {
      RunWellFormed(cd, tags[..|tags| - 1], user, status);
    }
  }

  /** Processing tag number `n` after a completed prefix is one more Apply. */
  lemma RunStep(cd: ChatData, tags: seq<string>, n: nat)
    requires n < |tags|
    ensures forall user, status :: Run(cd, tags[..n], user, status).Completed? ==>
      var (d, raised) := Apply(Run(cd, tags[..n], user, status).data, tags[n], user, status);
      Run(cd, tags[..n + 1], user, status) == if raised then Raised(d, n) else Completed(d)
  {
    assert tags[..n + 1][..n] == tags[..n];
  }

  /** A raise in the first `n` tags is the outcome of the whole loop. */
  lemma {:induction false} RaisedPersists(cd: ChatData, tags: seq<string>, user: User, status: bool, n: nat)
    requires n <= |tags|
    requires Run(cd, tags[..n], user, status).Raised?
    ensures Run(cd, tags, user, status) == Run(cd, tags[..n], user, status)
    decreases |tags| - n
  {
    if n < |tags| {
      var p := tags[..|tags| - 1];
      assert p[..n] == tags[..n];
      RaisedPersists(cd, p, user, status, n);
    } else {
      assert tags[..n] == tags;
    }
  }

  /** A non-empty list is its front followed by its last element. */
  lemma LastSplit(tags: seq<string>)
    requires tags != []
    ensures tags == tags[..|tags| - 1] + [tags[|tags| - 1]]
    ensures forall t :: t in tags <==> t in tags[..|tags| - 1] || t == tags[|tags| - 1]
  {
    assert tags == tags[..|tags| - 1] + [tags[|tags| - 1]];
  }

  /** Pairwise different tags. */
  ghost predicate Distinct(tags: seq<string>) {
    forall i, j :: 0 <= i < j < |tags| ==> tags[i] != tags[j]
  }

  /**
   * `/sub` never raises. Every listed tag ends up holding the user's entry,
   * stored exactly as `Put` stores it once (a repeated tag changes nothing more);
   * other tags are untouched; the new tags are exactly the listed ones not yet
   * present.
   */
  lemma {:induction false} SubscribeAll(cd: ChatData, tags: seq<string>, user: User)
    requires WellFormed(cd)
    ensures Run(cd, tags, user, true).Completed?
    ensures forall t :: t in tags ==>
      Get(Run(cd, tags, user, true).data, t) == Some(Put(Subs(cd, t), user.id, DisplayName(user)))
    ensures forall t :: t !in tags ==> Get(Run(cd, tags, user, true).data, t) == Get(cd, t)
    ensures forall t :: t in Keys(Run(cd, tags, user, true).data) <==> t in Keys(cd) || t in tags
  {
    if tags != [] {
      var p, x := tags[..|tags| - 1], tags[|tags| - 1];
      LastSplit(tags);
      SubscribeAll(cd, p, user);
      RunWellFormed(cd, p, user, true);
      var d0 := Run(cd, p, user, true).data;
      assert Run(cd, tags, user, true) == Completed(Apply(d0, x, user, true).0);
      SubscribeStep(cd, d0, p, x, user);
    }
  }

  /** One `/sub` iteration extends what SubscribeAll states from the tags `p` to `p + [x]`. */
  lemma SubscribeStep(cd: ChatData, d0: ChatData, p: seq<string>, x: string, user: User)
    requires WellFormed(cd) && WellFormed(d0)
    requires forall t :: t in p ==> Get(d0, t) == Some(Put(Subs(cd, t), user.id, DisplayName(user)))
    requires forall t :: t !in p ==> Get(d0, t) == Get(cd, t)
    requires forall t :: t in Keys(d0) <==> t in Keys(cd) || t in p
    ensures var d := Apply(d0, x, user, true).0;
      && (forall t :: t in p || t == x ==> Get(d, t) == Some(Put(Subs(cd, t), user.id, DisplayName(user))))
      && (forall t :: t !in p && t != x ==> Get(d, t) == Get(cd, t))
      && (forall t :: t in Keys(d) <==> t in Keys(cd) || t in p || t == x)
  {
    var d := Apply(d0, x, user, true).0;
    if x in p {
      PutIdempotent(Subs(cd, x), user.id, DisplayName(user));
    }
    forall t
      ensures t in Keys(d) <==> t in Keys(cd) || t in p || t == x
    {
      assert t in Keys(d) <==> t in Keys(d0) || t == x;
    }
  }

  /**
   * After `/sub`, a listed tag holds exactly one entry for the user, with the
   * display name; a user already there keeps the same position, a new one is
   * last; every other entry under the tag stays as it was, at the same place.
   */
  lemma SubscribedOnce(cd: ChatData, tags: seq<string>, user: User, t: string)
    requires WellFormed(cd)
    requires t in tags
    ensures var s := Subs(Run(cd, tags, user, true).data, t);
      && UniqueKeys(s)
      && Get(s, user.id) == Some(DisplayName(user))
      && (forall id :: id != user.id ==> Get(s, id) == Get(Subs(cd, t), id))
      && Keys(s) == (if user.id in Keys(Subs(cd, t)) then Keys(Subs(cd, t)) else Keys(Subs(cd, t)) + [user.id])
      && (forall i :: 0 <= i < |Subs(cd, t)| && Subs(cd, t)[i].0 != user.id ==> s[i] == Subs(cd, t)[i])
  {
    SubscribeAll(cd, tags, user);
  }

  /** The user holds an entry under every listed tag, and no tag is listed twice. */
  ghost predicate CanUnsubscribe(cd: ChatData, tags: seq<string>, id: int) {
    Distinct(tags) && forall i :: 0 <= i < |tags| ==> id in Keys(Subs(cd, tags[i]))
  }

  /**
   * A completed `/unsub` takes the user's entry out of each listed tag and keeps
   * every tag key, also of a tag left with no subscriber; other tags are as before.
   */
  lemma {:induction false} UnsubscribeEffect(cd: ChatData, tags: seq<string>, user: User)
    requires WellFormed(cd)
    requires Run(cd, tags, user, false).Completed?
    ensures Keys(Run(cd, tags, user, false).data) == Keys(cd)
    ensures forall t :: t in tags ==> Get(Run(cd, tags, user, false).data, t) == Delete(Subs(cd, t), user.id)
    ensures forall t :: t !in tags ==> Get(Run(cd, tags, user, false).data, t) == Get(cd, t)
  {
    if tags != [] {
      var p, x := tags[..|tags| - 1], tags[|tags| - 1];
      LastSplit(tags);
      var prev := Run(cd, p, user, false);
      assert prev.Completed?;
      UnsubscribeEffect(cd, p, user);
      RunWellFormed(cd, p, user, false);
      var d0 := prev.data;
      var (d, raised) := Apply(d0, x, user, false);
      assert !raised && Run(cd, tags, user, false).data == d;
      assert user.id in Keys(Subs(d0, x));
      assert x !in p;
      assert Subs(d0, x) == Subs(cd, x);
      assert x in Keys(d0);
    }
  }

  /**
   * `/unsub` completes exactly when the tags are pairwise different and the user
   * is subscribed to each of them.
   */
  lemma {:induction false} UnsubscribeCompletes(cd: ChatData, tags: seq<string>, user: User)
    requires WellFormed(cd)
    ensures Run(cd, tags, user, false).Completed? <==> CanUnsubscribe(cd, tags, user.id)
  {
    if tags != [] {
      var p, x := tags[..|tags| - 1], tags[|tags| - 1];
      CanUnsubscribeSnoc(cd, tags, user.id);
      UnsubscribeCompletes(cd, p, user);
      var prev := Run(cd, p, user, false);
      if prev.Completed? {
        UnsubscribeEffect(cd, p, user);
        RunWellFormed(cd, p, user, false);
        var d0 := prev.data;
        if x in p {
          assert user.id !in Keys(Subs(d0, x));
        } else {
          assert Subs(d0, x) == Subs(cd, x);
        }
      }
    }
  }

  /** What the last tag of the list adds to CanUnsubscribe. */
  lemma CanUnsubscribeSnoc(cd: ChatData, tags: seq<string>, id: int)
    requires tags != []
    ensures CanUnsubscribe(cd, tags, id) <==>
      && CanUnsubscribe(cd, tags[..|tags| - 1], id)
      && tags[|tags| - 1] !in tags[..|tags| - 1]
      && id in Keys(Subs(cd, tags[|tags| - 1]))
  {
    var p, x := tags[..|tags| - 1], tags[|tags| - 1];
    if x in p {
      var j :| 0 <= j < |p| && p[j] == x;
      assert tags[j] == tags[|tags| - 1];
    }
    if !Distinct(p) {
      var i, j :| 0 <= i < j < |p| && p[i] == p[j];
      assert tags[i] == tags[j];
    }
    if CanUnsubscribe(cd, p, id) && x !in p && id in Keys(Subs(cd, x)) {
      forall i | 0 <= i < |tags|
        ensures id in Keys(Subs(cd, tags[i]))
      {
        if i < |p| { assert tags[i] == p[i]; }
      }
    }
  }

  /**
   * When `/unsub` raises at tag number `at`: the tags before it were all
   * processed (their changes stay), the user had no entry under that tag, and
   * `setdefault` has already stored it, as an empty dict if it was new.
   */
  lemma {:induction false} UnsubscribeRaised(cd: ChatData, tags: seq<string>, user: User, status: bool)
    requires Run(cd, tags, user, status).Raised?
    ensures var r := Run(cd, tags, user, status);
      && !status
      && Run(cd, tags[..r.at], user, status).Completed?
      && user.id !in Keys(Subs(Run(cd, tags[..r.at], user, status).data, tags[r.at]))
      && r.data == SetDefault(Run(cd, tags[..r.at], user, status).data, tags[r.at], []).0
  {
    var p := tags[..|tags| - 1];
    if Run(cd, p, user, status).Raised? {
      UnsubscribeRaised(cd, p, user, status);
      RaisedEarlier(cd, tags, user, status);
    } else {
      RaisedAtLast(cd, tags, user, status);
    }
  }

  /** A raise inside the front of the list is the same raise, at the same tag, for the whole list. */
  lemma RaisedEarlier(cd: ChatData, tags: seq<string>, user: User, status: bool)
    requires tags != []
    requires Run(cd, tags[..|tags| - 1], user, status).Raised?
    ensures Run(cd, tags, user, status) == Run(cd, tags[..|tags| - 1], user, status)
    ensures var at := Run(cd, tags, user, status).at;
      at < |tags| - 1 && tags[..at] == tags[..|tags| - 1][..at] && tags[at] == tags[..|tags| - 1][at]
  {
  }

  /** A raise on the last tag, after the front of the list completed. */
  lemma RaisedAtLast(cd: ChatData, tags: seq<string>, user: User, status: bool)
    requires tags != []
    requires Run(cd, tags[..|tags| - 1], user, status).Completed?
    requires Run(cd, tags, user, status).Raised?
    ensures var r := Run(cd, tags, user, status);
      && !status
      && r.at == |tags| - 1
      && tags[..r.at] == tags[..|tags| - 1]
      && user.id !in Keys(Subs(Run(cd, tags[..r.at], user, status).data, tags[r.at]))
      && r.data == SetDefault(Run(cd, tags[..r.at], user, status).data, tags[r.at], []).0
  {
  }

  /** A tag given twice to `/unsub` raises, at the latest on its second occurrence. */
  lemma DuplicateRaises(cd: ChatData, tags: seq<string>, user: User, i: nat, j: nat)
    requires WellFormed(cd)
    requires i < j < |tags| && tags[i] == tags[j]
    ensures Run(cd, tags, user, false).Raised?
    ensures Run(cd, tags, user, false).at <= j
  {
    var q := tags[..j + 1];
    assert q[i] == q[j];
    UnsubscribeCompletes(cd, q, user);
    RaisedPersists(cd, tags, user, false, j + 1);
  }

  /** Removing the last subscriber of a tag leaves the tag in place, with an empty dict. */
  lemma LastSubscriberLeaves(cd: ChatData, tag: string, user: User)
    requires WellFormed(cd)
    requires Keys(Subs(cd, tag)) == [user.id]
    ensures Run(cd, [tag], user, false).Completed?
    ensures Keys(Run(cd, [tag], user, false).data) == Keys(cd)
    ensures Get(Run(cd, [tag], user, false).data, tag) == Some([])
  {
    UnsubscribeCompletes(cd, [tag], user);
    assert user.id in Keys(Subs(cd, tag));
  }

  /**
   * Whatever the outcome, the command only touches the invoking user's entries:
   * every other user's entry under every tag is as before, tags that were not
   * listed are as before, and no tag key goes away.
   */
  lemma {:induction false} OtherUsersUntouched(cd: ChatData, tags: seq<string>, user: User, status: bool)
    requires WellFormed(cd)
    ensures forall t, id :: id != user.id ==>
      Get(Subs(Run(cd, tags, user, status).data, t), id) == Get(Subs(cd, t), id)
    ensures forall t :: t !in tags ==> Get(Run(cd, tags, user, status).data, t) == Get(cd, t)
  {
    if tags != [] {
      var p, x := tags[..|tags| - 1], tags[|tags| - 1];
      LastSplit(tags);
      OtherUsersUntouched(cd, p, user, status);
      RunWellFormed(cd, p, user, status);
      var prev := Run(cd, p, user, status);
      if prev.Completed? {
        var d0 := prev.data;
        var d := Apply(d0, x, user, status).0;
        forall t, id | id != user.id
          ensures Get(Subs(d, t), id) == Get(Subs(d0, t), id)
        {
          if t == x && x in Keys(d) {
            if status {
              assert Subs(d, x) == Put(Subs(d0, x), user.id, DisplayName(user));
            } else if user.id in Keys(Subs(d0, x)) {
              assert Subs(d, x) == Delete(Subs(d0, x), user.id).value;
            } else {
              assert Subs(d, x) == Subs(d0, x);
            }
          }
        }
      }
    }
  }
}
