# arromba-bot: subscription registry and hashtag fan-out

arromba-bot is a Telegram group bot. Users send `/sub #tag ...` to subscribe to
hashtags and `/unsub #tag ...` to leave them. When anyone posts a message with
hashtags, the bot replies with a mention of every subscriber of those tags.

All of the bot's state is one chat's `chat_data`. It is a Python dict from tag to
a dict from Telegram user id to display name, and both levels keep insertion order.
This project models that state and the three handlers that use it:

- `update_subscription`, with its wrappers `handle_sub` and `handle_unsub`;
- the fan-out expression of `handle_text`.

Modules:

- `Dicts` (dicts.dfy): Python's ordered `dict` as a sequence of `(key, value)` entries with unique keys. It implements `d.get(k, default)`, `d[k] = v` (an existing key keeps its place, a new key goes last), `del d[k]` (fails when the key is absent, which stands for the KeyError) and `d.setdefault(k, default)`.
- `Text` (text.dfy): `" ".join` and, as its partner, `str.split(" ")`, with both round trips proved.
- `Subscriptions` (subscriptions.dfy): `chat_data` as `Dict<string, Dict<int, string>>`, plus the users, errors and the confirmation text. `Apply` is one pass of the loop over the tags and `Run` is the whole loop. The lemmas state what `/sub` and `/unsub` do.
- `Bot` (bot.dfy): class `Registry`, whose field `chatData` is one chat's `chat_data`. `UpdateSubscription` runs the argument checks and then the `for` loop in place, and it is proved equal to `Run`.
- `Fanout` (fanout.dfy): the list of mentions for a message's hashtags (`Mentions`), the reply decision (`HandleText`) and their properties.

Points of behaviour worth knowing, all taken from the code:

- Removing a tag's last subscriber leaves the tag in `chat_data` with an empty dict. Tags are never pruned.
- `/unsub` for a tag the user is not subscribed to raises a KeyError from `del`. It does not report "not subscribed" or skip the tag. Tags handled earlier in the same command stay changed, and `setdefault` has already stored the failing tag (as an empty dict if the tag was new).
- The fan-out does not deduplicate. A user under two of the message's tags, or under a tag written twice, is mentioned once per occurrence.
- The bot has no command to list a user's tags, list all tags or show information about a user or tag. Its only commands are `/sub` and `/unsub`, plus the reply to ordinary messages. Persistence of `chat_data` is not modelled; see "## Left out".

## Model

| member | source | states |
|---|---|---|
| Dicts.Find | arromba_bot/__init__.py:33 | dict lookup by key: absent exactly when the key is not among the keys, otherwise the first (for a real dict, the only) position holding the key |
| Dicts.Get | arromba_bot/__init__.py:64 | a key's value: present exactly when the key is in the dict; the value is the one stored with the key |
| Dicts.GetOr | arromba_bot/__init__.py:64 | `d.get(k, default)`: the default for an absent key, otherwise the value stored with the key |
| Dicts.Put | arromba_bot/__init__.py:36 | `d[k] = v`: key order unchanged if `k` was present, else `k` appended; all other entries stay at their positions; the dict stays a dict; `k` maps to `v`; every other key maps to what it mapped to before |
| Dicts.PutIdempotent | arromba_bot/__init__.py:36 | storing the same value under the same key twice is the same as storing it once |
| Dicts.Delete | arromba_bot/__init__.py:38 | `del d[k]`: fails exactly when `k` is absent; otherwise exactly `k`'s entry is removed, the rest keep their order and values, and `k` is gone |
| Dicts.RemoveAt | arromba_bot/__init__.py:38 | taking one entry out of a dict leaves a dict in which that key is absent and every other key keeps its value |
| Dicts.SetDefault | arromba_bot/__init__.py:33 | `d.setdefault(k, default)`: returns the value already stored under `k`, or the default; an absent `k` is appended with the default; every other key is unchanged |
| Text.Join | arromba_bot/__init__.py:42 | `" ".join(parts)` is empty exactly when there are no parts or a single empty part, and it starts with the first part |
| Text.JoinAppend | arromba_bot/__init__.py:42 | joining two non-empty lists end to end is joining each and putting one space between, whatever the parts contain |
| Text.Split | arromba_bot/__init__.py:42 | not called by the bot: the partner of the join at this line. `s.split(" ")` yields at least one piece, and no piece holds a space |
| Text.JoinSplit | arromba_bot/__init__.py:42 | joining the pieces of a split gives back the original string |
| Text.SplitJoin | arromba_bot/__init__.py:42 | splitting a join of space-free parts gives back the parts |
| Subscriptions.Subs | arromba_bot/__init__.py:64 | `chat_data.get(tag, {})`: empty for an unknown tag, otherwise the dict stored under the tag |
| Subscriptions.IsHashtag | arromba_bot/__init__.py:23-25 | `tag.startswith("#")`: true exactly when `"#"` is a prefix of the tag |
| Subscriptions.Prefix | arromba_bot/__init__.py:41 | the mark is a single non-space character: `+` exactly for subscribe and `-` exactly for unsubscribe |
| Subscriptions.DisplayName | arromba_bot/__init__.py:36 | `user.username or user.first_name`: the username when it is present and not empty, otherwise the first name |
| Subscriptions.Confirmation | arromba_bot/__init__.py:41-42 | the confirmation text starts with the first tag, prefixed with `+` or `-` |
| Subscriptions.ConfirmationWords | arromba_bot/__init__.py:41-42 | when no tag contains a space, the words of the confirmation are the tags in the order given, each prefixed with `+` for subscribe and `-` for unsubscribe |
| Subscriptions.Apply | arromba_bot/__init__.py:33-38 | one pass of the loop: raises exactly when unsubscribing a user who has no entry under the tag, and then the only change is the `setdefault`; subscribe stores (id, display name) under the tag; unsubscribe deletes the entry; the tag key is appended when new; other tags are unchanged; the chat data stays well formed |
| Subscriptions.Run | arromba_bot/__init__.py:32-38 | the whole loop: no existing tag key is ever lost and keys keep their order; a raise names the position of a listed tag |
| Subscriptions.PutWellFormed | arromba_bot/__init__.py:36 | writing a subscriber dict back under a tag keeps both levels of `chat_data` real dicts |
| Subscriptions.SetDefaultWellFormed | arromba_bot/__init__.py:33 | `setdefault(tag, {})` keeps both levels of `chat_data` real dicts |
| Subscriptions.RunWellFormed | arromba_bot/__init__.py:32-38 | whatever the outcome, the loop leaves both levels of `chat_data` real dicts |
| Subscriptions.RunStep | arromba_bot/__init__.py:32-38 | after a completed prefix, the next tag runs exactly one more `Apply` |
| Subscriptions.RaisedPersists | arromba_bot/__init__.py:32-38 | a raise while processing the first n tags is the outcome of the whole command: later tags are never reached |
| Subscriptions.SubscribeAll | arromba_bot/__init__.py:32-36 | `/sub` never raises; every listed tag ends up holding its old subscribers with the user stored once (repeated tags add nothing); unlisted tags are unchanged; the tags after the command are exactly the old ones plus the listed ones |
| Subscriptions.SubscribeStep | arromba_bot/__init__.py:33-36 | one `/sub` iteration on tag `x` adds `x` to the listed tags: it now holds its original subscribers plus the user, whether `x` was already processed or not, and no other tag changes |
| Subscriptions.SubscribedOnce | arromba_bot/__init__.py:33-36 | after `/sub`, a listed tag has exactly one entry for the user, holding the display name; a user already there keeps their position and a new user goes last; other users' entries keep their values and positions |
| Subscriptions.UnsubscribeEffect | arromba_bot/__init__.py:33-38 | a completed `/unsub` deletes the user's entry under each listed tag, keeps every tag key (even one left with no subscribers) and leaves unlisted tags unchanged |
| Subscriptions.UnsubscribeCompletes | arromba_bot/__init__.py:32-38 | `/unsub` completes exactly when the listed tags are pairwise different and the user is subscribed to every one of them |
| Subscriptions.UnsubscribeRaised | arromba_bot/__init__.py:32-38 | when `/unsub` raises at a tag: all earlier tags were processed and their changes are kept; the user had no entry under the failing tag; the failing tag has been stored by `setdefault` |
| Subscriptions.DuplicateRaises | arromba_bot/__init__.py:32-38 | a tag listed twice makes `/unsub` raise, at the latest on the second occurrence |
| Subscriptions.LastSubscriberLeaves | arromba_bot/__init__.py:33-38 | unsubscribing a tag's only subscriber keeps the tag, with an empty dict, and keeps all tag keys |
| Subscriptions.OtherUsersUntouched | arromba_bot/__init__.py:32-38 | whatever the outcome, every other user's entry under every tag is unchanged, and so is every unlisted tag |
| Bot.Registry.UpdateSubscription | arromba_bot/__init__.py:19-43 | checks run before anything changes: no tags fails with "me diz pelo menos uma tag, né", and a tag not starting with `#` fails with "foi mal, mas tag tem que começar com #", both leaving `chat_data` unchanged; otherwise the in-place loop leaves exactly `Run`'s state, and the result is the confirmation if the loop completed or the KeyError for the user id if it raised |
| Bot.Registry.HandleSub | arromba_bot/__init__.py:46-47 | `/sub` is `update_subscription` with status true. With valid tags it always answers with the `+` confirmation, and the state is `Run`'s. With no tags it fails with "me diz pelo menos uma tag, né", and with a tag not starting with `#` it fails with "foi mal, mas tag tem que começar com #". In both failure cases `chat_data` is unchanged |
| Bot.Registry.HandleUnsub | arromba_bot/__init__.py:50-51 | `/unsub` is `update_subscription` with status false. With valid tags the state is `Run`'s. The answer is the `-` confirmation when the tags are distinct and the user is subscribed to each, and otherwise the KeyError for the user's id. With no tags, or with a tag not starting with `#`, it fails with the same two messages as `/sub` and leaves `chat_data` unchanged |
| Fanout.Tokens | arromba_bot/__init__.py:69 | one mention per subscriber entry, in the dict's order |
| Fanout.Mentions | arromba_bot/__init__.py:64-70 | the mentions generator: every mention produced belongs to a subscriber entry, with that id and name, of one of the message's hashtags (MentionedIff adds the converse, MentionsAppend and MentionsAround the order, MentionMultiplicity the count) |
| Fanout.MentionedIff | arromba_bot/__init__.py:64-70 | a mention is produced exactly when its user is subscribed, under that name, to one of the message's hashtags |
| Fanout.MentionsAppend | arromba_bot/__init__.py:64-70 | hashtag order is the outer order: splitting the hashtag list splits the mention list the same way |
| Fanout.MentionsAround | arromba_bot/__init__.py:64-70 | a tag's subscribers appear, in subscription order, between the mentions from the hashtags before it and those from the hashtags after it |
| Fanout.MentionsSingle | arromba_bot/__init__.py:64-69 | a single hashtag yields exactly that tag's subscribers, in order |
| Fanout.Rendered | arromba_bot/__init__.py:66-70 | the rendered mentions of a message: one text per mention, the i-th being the rendering of the i-th mention |
| Fanout.RenderedAppend | arromba_bot/__init__.py:66-70 | splitting the hashtag list splits the rendered mentions the same way |
| Fanout.UnknownTagSilent | arromba_bot/__init__.py:64 | a hashtag missing from `chat_data` contributes nothing |
| Fanout.MentionCount | arromba_bot/__init__.py:64-70 | the number of mentions is the sum of the sizes of the looked-up subscriber dicts |
| Fanout.MentionMultiplicity | arromba_bot/__init__.py:64-70 | no deduplication: a user is mentioned as many times as there are hashtag occurrences whose subscribers include them |
| Fanout.TokensOnce | arromba_bot/__init__.py:69 | each entry of a subscriber dict yields exactly one mention |
| Fanout.TwoTagsMentionTwice | arromba_bot/__init__.py:64-70 | in the chat where #a = {1: alice} and #b = {1: alice, 2: bob}, the message `#a #b` mentions alice, alice, bob, in that order |
| Fanout.HandleText | arromba_bot/__init__.py:72-74 | there is no reply exactly when the joined text is empty, which happens with no mentions or with a single mention rendered as empty text; a reply starts with the first mention |
| Fanout.ReplyIffMentions | arromba_bot/__init__.py:72-74 | when a rendered mention is never empty, a reply is sent exactly when the mention list is non-empty |
| Fanout.ReplyWords | arromba_bot/__init__.py:72 | when the message's own rendered mentions are non-empty and space-free, the words of the reply are those mentions in order |
| Fanout.ReplyAppend | arromba_bot/__init__.py:64-74 | with no empty rendered mention, the reply to hashtags `a + b` is the reply to `a`, a space, and the reply to `b`, whatever the mentions contain (display names with spaces included) |

## Left out

- `main`, the `Updater`, the dispatcher, handler registration and polling (arromba_bot/__init__.py:90-104) are transport and event-loop plumbing.
- `get_persistence` and `PicklePersistence` (arromba_bot/__init__.py:82-87) are file-system I/O and serialisation done by the library.
- `handle_error` (arromba_bot/__init__.py:77-79) sends the exception's text as a reply. This is output only, so the KeyError is modelled by the user id it carries and not by its text.
- Hashtag extraction by `parse_entities` / `parse_caption_entities` (arromba_bot/__init__.py:58-61) is Telegram's job. `HandleText` takes the extracted hashtags, in message order, as input. The case where the message has neither entity list, which leaves `hashtags` unbound, is not modelled.
- `mention_markdown` and Markdown rendering come from a foreign library. A mention is the value `Mention(id, name)`, and its text is the caller's `render` function.
- `reply_text` is an output side effect. It is modelled as the returned confirmation text or `Option` reply.
- The `is not None` assertions on `context.args`, the user, `chat_data` and the message (arromba_bot/__init__.py:21, 28, 30, 40, 56, 63) are assumed to hold and are not modelled. As written, a missing message at line 40 would raise only after the loop had changed `chat_data`.
- `setdefault` returns the inner dict object, and the loop then changes that object in place. The model rebuilds the inner dict as a value and stores it back under the tag. This has the same effect, because nothing else holds that object.
- Concurrency between handlers is not modelled. Each handler is one sequential call on one chat's data.
