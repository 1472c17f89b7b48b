/**
 * The command handlers of arromba_bot/__init__.py that change a chat's state:
 * `update_subscription` and its two wrappers `handle_sub` and `handle_unsub`.
 * A Registry object stands for `context.chat_data` of one chat; the loop over
 * the tags updates it in place, exactly as the Python loop does, and each
 * method is proved against the specification in module Subscriptions.
 */
module Bot {
  import opened Dicts
  import opened Subscriptions

  class Registry {
    /** `context.chat_data`: tag to (user id to display name). */
    var chatData: ChatData

    ghost predicate Valid()
      reads this
    {
      WellFormed(chatData)
    }

    /** A chat seen for the first time has empty chat data. */
    constructor ()
      ensures Valid() && chatData == []
    {
      chatData := [];
    }

    /**
     * `update_subscription(update, context, status)`. The argument checks run
     * first and change nothing; then the tags are processed in order, and a
     * `del` that raises stops the loop with the earlier changes kept. The
     * result is the confirmation text the handler replies with, or the error
     * that aborted it.
     */
    method UpdateSubscription(tags: seq<string>, user: User, status: bool) returns (r: Result<string>)
      requires Valid()
      modifies this
      ensures Valid()
      ensures |tags| == 0 ==> r == Err(AssertionError(NoTagsMessage)) && chatData == old(chatData)
      ensures |tags| > 0 && (exists i :: 0 <= i < |tags| && !IsHashtag(tags[i])) ==>
        r == Err(AssertionError(BadTagMessage)) && chatData == old(chatData)
      ensures |tags| > 0 && (forall i :: 0 <= i < |tags| ==> IsHashtag(tags[i])) ==>
        && chatData == Run(old(chatData), tags, user, status).data
        && r == if Run(old(chatData), tags, user, status).Completed?
                then Ok(Confirmation(tags, status))
                else Err(KeyError(user.id))
    {
      if |tags| == 0 {
        return Err(AssertionError(NoTagsMessage));
      }
      if !forall i :: 0 <= i < |tags| ==> IsHashtag(tags[i]) {
        return Err(AssertionError(BadTagMessage));
      }
      ghost var start := chatData;
      for i := 0 to |tags|
        invariant WellFormed(chatData)
        invariant Run(start, tags[..i], user, status) == Completed(chatData)
      {
        var tag := tags[i];
        ghost var before := chatData;
        RunStep(start, tags, i);
        var (cd1, subscribers) := SetDefault(chatData, tag, []);
        chatData := cd1;
        if status {
          chatData := Put(chatData, tag, Put(subscribers, user.id, DisplayName(user)));
        } else {
          match Delete(subscribers, user.id)
          case None =>
            assert Apply(before, tag, user, status) == (chatData, true);
            RaisedPersists(start, tags, user, status, i + 1);
            return Err(KeyError(user.id));
          case Some(rest) =>
            chatData := Put(chatData, tag, rest);
        }
        assert Apply(before, tag, user, status) == (chatData, false);
      }
      assert tags[..|tags|] == tags;
      r := Ok(Confirmation(tags, status));
    }

    /** `handle_sub`: the `/sub` command. */
    method HandleSub(tags: seq<string>, user: User) returns (r: Result<string>)
      requires Valid()
      modifies this
      ensures Valid()
      ensures |tags| > 0 && (forall i :: 0 <= i < |tags| ==> IsHashtag(tags[i])) ==>
        r == Ok(Confirmation(tags, true)) && chatData == Run(old(chatData), tags, user, true).data
      ensures |tags| == 0 ==> r == Err(AssertionError(NoTagsMessage)) && chatData == old(chatData)
      ensures |tags| > 0 && (exists i :: 0 <= i < |tags| && !IsHashtag(tags[i])) ==>
        r == Err(AssertionError(BadTagMessage)) && chatData == old(chatData)
    {
      SubscribeAll(chatData, tags, user);
      r := UpdateSubscription(tags, user, true);
    }

    /** `handle_unsub`: the `/unsub` command. */
    method HandleUnsub(tags: seq<string>, user: User) returns (r: Result<string>)
      requires Valid()
      modifies this
      ensures Valid()
      ensures |tags| > 0 && (forall i :: 0 <= i < |tags| ==> IsHashtag(tags[i])) ==>
        && chatData == Run(old(chatData), tags, user, false).data
        && (CanUnsubscribe(old(chatData), tags, user.id) ==> r == Ok(Confirmation(tags, false)))
        && (!CanUnsubscribe(old(chatData), tags, user.id) ==> r == Err(KeyError(user.id)))
      ensures |tags| == 0 ==> r == Err(AssertionError(NoTagsMessage)) && chatData == old(chatData)
      ensures |tags| > 0 && (exists i :: 0 <= i < |tags| && !IsHashtag(tags[i])) ==>
        r == Err(AssertionError(BadTagMessage)) && chatData == old(chatData)
    {
      UnsubscribeCompletes(chatData, tags, user);
      r := UpdateSubscription(tags, user, false);
    }
  }
}
