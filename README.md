# Shh screen state, modelled in Dafny

Shh is a React Native app (meditation screens plus a small social-posting
front end). It has no back end and no engine; the only behaviour that can be
stated precisely lives in three screens, each a transformation over a list:

- **Thread composer** (`app/compose.tsx`): a list of draft posts (`id`,
  `content`, `images`, `location`). Handlers edit a post by id, append a new
  blank draft keyed `length + 1`, reorder by dragging, and publish every post
  with non-blank text as a local notification. The Post button is disabled
  when every post is blank or some post exceeds 280 characters.
- **Settings** (`app/settings/index.tsx`): the battery icon picked from the
  battery level, the fixed table of settings entries, and a case-insensitive
  search over the entries' titles and subtitles.
- **Notifications** (`app/notifications.tsx`): a fixed list, the unread
  count taken when the screen opens, and two switches that hide likes and
  reposts.

Files:

- `lists.dfy` (module `Lists`): `Filter`, the order-preserving filter that
  all three screens use, with its laws: the result is a subsequence of the
  input, membership, multiplicity, keep-all, emptiness, extensionality and
  monotonicity.
- `text.dfy` (module `Text`): JavaScript `trim` over the full ECMAScript
  white-space and line-terminator set, `toLowerCase` (see Left out), and
  `includes`, each tied to a reference definition.
- `compose.dfy` (module `Compose`): the `Post` datatype, the pure list
  transformations, and the class `ComposeScreen`. The class holds the
  `posts` state that every handler replaces. Its invariant `WellKeyed` says
  the ids are distinct and lie in 1..n. `WellKeyedCoversRange` shows that this
  makes the ids a permutation of 1..n, so the `id` list key is unique.
- `settings.dfy` (module `Settings`), `notifications.dfy` (module
  `Notifications`): the two pure screens.

Platform results are parameters of the handlers: the image picker's outcome,
the location permission and the formatted position, and which
`createNotification` call, if any, rejects. Each platform outcome includes a
rejected call. The notifications `handlePost` sends and the alert
`pickLocation` shows are returned values. The translator `t` is a parameter
of the settings table. `PostDisabled`, `PostEnabledIff` and
`OverLimitDisables` state when the Post button is enabled. The notification
field `type` is named `kind`, because `type` is a Dafny keyword.

## Model

| member | source | states |
|---|---|---|
| `Lists.Filter` | app/compose.tsx:27 | the result is no longer than the input and every element it holds passes the test |
| `Lists.FilterCount` | app/compose.tsx:27 | each passing element is kept exactly as often as it occurs in the input; every other element is dropped |
| `Text.Trim` | app/compose.tsx:27 | the result has no white space at either end and is no longer than the input |
| `Text.TrimKeepsMiddle` | app/compose.tsx:27 | trimming keeps one contiguous piece of the string; everything dropped before and after it is white space |
| `Text.TrimEmptyIffBlank` | app/compose.tsx:27 | a string trims to length 0 exactly when every character is white space |
| `Text.ToLower` | app/settings/index.tsx:145-146 | lower-casing keeps the length and maps each character to its lower-case form |
| `Text.EqualIgnoringCaseLower` | app/settings/index.tsx:145-146 | two strings lower-case to the same string exactly when they differ only in letter case |
| `Text.IncludesAt` | app/settings/index.tsx:145-146 | `includes` holds exactly when the query occurs in the string at some position |
| `Compose.InitialPosts` | app/compose.tsx:21-23 | the screen starts with one draft with id 1, empty text, no images and no location; that list is well keyed |
| `Compose.ComposeScreen.constructor` | app/compose.tsx:21-23 | the state starts as the initial list and satisfies the key invariant |
| `Compose.WellKeyedCoversRange` | app/compose.tsx:52-57 | n distinct ids in 1..n take every value 1..n, so the ids are a permutation of 1..n |
| `Compose.UpdateById` | app/compose.tsx:46-50 | same length and ids; posts with another id are unchanged; posts with the id get the edit |
| `Compose.UpdateChangesOnlyTarget` | app/compose.tsx:46-50 | with unique keys, an update by id changes exactly the post at the position holding that id |
| `Compose.UpdateMissingIdIsIdentity` | app/compose.tsx:66-74 | an update for an id that no post has leaves the list unchanged |
| `Compose.AppendNew` | app/compose.tsx:52-57 | the old list is kept as a prefix and one post with id `length + 1`, empty text, no images and no location follows; keys stay unique and within 1..n |
| `Compose.Move` | app/compose.tsx:209 | a drag keeps the length, puts the dragged post at its target, and takes every post from a computed source position |
| `Compose.MovePermutes` | app/compose.tsx:209 | a drag only reorders: the multiset of posts is unchanged |
| `Compose.MoveKeepsKeys` | app/compose.tsx:205-209 | after a drag the ids are still distinct and within 1..n |
| `Compose.HasTextIffNotBlank` | app/compose.tsx:27 | a post has text after trimming exactly when some character is not white space |
| `Compose.ValidPosts` | app/compose.tsx:27 | the posts to publish form a subsequence of the list, in list order |
| `Compose.ValidPostsMembership` | app/compose.tsx:27 | a post is published exactly when it is in the list and has text after trimming |
| `Compose.DistinctIdsOccurOnce` | app/compose.tsx:207 | posts with distinct ids (the list keys) are distinct values, so each occurs once |
| `Compose.PublishedOnce` | app/compose.tsx:27-34 | with unique keys, each post with text is published exactly once and every other post not at all |
| `Compose.ValidPostsEmpty` | app/compose.tsx:27-28 | nothing is published exactly when every post is blank |
| `Compose.CharacterCount` | app/compose.tsx:102 | the counter counts every character, so it is at least the trimmed length, and it is 0 exactly for empty text |
| `Compose.IsOverLimit` | app/compose.tsx:103 | a post over the limit is never empty, and a post within the limit also fits once trimmed |
| `Compose.PostDisabled` | app/compose.tsx:188-191 | the button is disabled exactly when nothing would be published or some post is over 280 characters; an empty thread is disabled |
| `Compose.PostEnabledIff` | app/compose.tsx:188-191 | the Post button is enabled exactly when some post has text and every post is at most 280 characters long |
| `Compose.OverLimitDisables` | app/compose.tsx:188-191 | one post over 280 characters disables the Post button, whatever the others hold |
| `Compose.AnnouncementQuotesPost` | app/compose.tsx:30-33 | every notice is titled "Post Created" and its body quotes the post's text verbatim, so two notices are equal exactly when the posts' texts are |
| `Compose.ComposeScreen.HandleContentChange` | app/compose.tsx:46-50 | the new state is the update by id with the new content; the key invariant is kept |
| `Compose.ComposeScreen.AddNewPost` | app/compose.tsx:52-57 | the new state is the old list plus one blank post with id `length + 1`; the key invariant is kept |
| `Compose.ComposeScreen.PickImages` | app/compose.tsx:59-75 | a cancelled or rejected pick changes nothing; a completed pick gives the post with the id the picked URIs |
| `Compose.ComposeScreen.PickLocation` | app/compose.tsx:77-91 | a refused permission changes nothing and raises one alert; a rejected request or lookup changes nothing and raises none; otherwise the post with the id gets the location |
| `Compose.ComposeScreen.OnDragEnd` | app/compose.tsx:205-210 | the new state is the dragged order; it holds the same posts and keeps the key invariant |
| `Compose.ComposeScreen.HandlePost` | app/compose.tsx:26-37 | one notification per post with text, in list order, each carrying that post's content; a rejected call stops after the notices before it; navigates back exactly when every call succeeded and some post has text |
| `Settings.BatteryIcon` | app/settings/index.tsx:67-73 | no reading gives `battery-unknown`; otherwise full at 0.75 and above, half in [0.5, 0.75), quarter in [0.25, 0.5), empty below 0.25 |
| `Settings.BatteryIconMonotone` | app/settings/index.tsx:69-72 | a higher level never shows an emptier icon |
| `Settings.SettingsTable` | app/settings/index.tsx:75-142 | the table holds eleven entries |
| `Settings.BatteryEntryIsHalf` | app/settings/index.tsx:118-123 | at the fixed level 0.5, the Battery entry shows `battery-half` |
| `Settings.Matches` | app/settings/index.tsx:145-146 | an entry matches exactly when the lower-cased search text occurs in its lower-cased title or subtitle; the empty search text matches every entry |
| `Settings.FilteredSettings` | app/settings/index.tsx:144-147 | the shown entries are a subsequence of the table, in table order |
| `Settings.FilteredSettingsMembership` | app/settings/index.tsx:144-147 | an entry is shown exactly when the lower-cased search text occurs in its lower-cased title or subtitle |
| `Settings.EmptySearchKeepsAll` | app/settings/index.tsx:144-147 | an empty search shows every entry |
| `Settings.InitialScreenListsAll` | app/settings/index.tsx:65 | with the initial empty search text, the whole table is listed |
| `Settings.SearchIgnoresCase` | app/settings/index.tsx:145-146 | search texts that differ only in letter case select the same entries |
| `Notifications.ShippedNotifications` | app/notifications.tsx:9-33 | two notifications with distinct ids, the list keys |
| `Notifications.UnreadCount` | app/notifications.tsx:70-72 | the count is at most the list's length, and it is zero exactly when every notification is read |
| `Notifications.UnreadCountStep` | app/notifications.tsx:70-72 | the count grows by one for each unread notification and not for a read one, so it is the number of unread notifications |
| `Notifications.ShippedUnreadCount` | app/notifications.tsx:9-33 | the shipped list has exactly one unread notification |
| `Notifications.HandleFilterChange` | app/notifications.tsx:78-80 | the named switch takes the new value and the other switch keeps its old value |
| `Notifications.Shown` | app/notifications.tsx:82-86 | a like passes exactly when likes are shown, a repost exactly when reposts are shown, any other kind always |
| `Notifications.FilteredNotifications` | app/notifications.tsx:82-86 | a subsequence of the list in order; no like remains when likes are hidden, no repost when reposts are hidden |
| `Notifications.FilteredNotificationsMembership` | app/notifications.tsx:82-86 | a notification is listed exactly when it is in the list and its kind is not switched off |
| `Notifications.OtherKindsAlwaysShown` | app/notifications.tsx:85 | a notification that is neither a like nor a repost is always shown |
| `Notifications.AllShownInitially` | app/notifications.tsx:73-76 | with both switches on, as the screen starts, the whole list is shown |
| `Notifications.FilterMonotoneInFlags` | app/notifications.tsx:82-86 | turning switches on only adds notifications, in the same order |
| `Notifications.SwitchOnNeverHides` | app/notifications.tsx:78-86 | switching a kind on never hides a notification that was shown |

## Left out

- Audio player (app/audioPlayer.tsx): it only forwards load, play, pause and unload to the platform audio library and keeps two flags. It has no seek, volume, position polling or clamping, so no such controller is modelled.
- Home-screen loading and refresh (app/index.tsx): network fetch, device key-value storage and a timer; all of it is I/O.
- Image picker, location permission and position, and `createNotification`: only their outcomes are modelled, as parameters and returned values. These include a rejected call: it leaves the posts unchanged, and in `handlePost` it stops the loop and skips the back navigation. The unhandled rejection this raises in the JavaScript runtime is not modelled. Turning the coordinates into the location string is floating-point formatting and is not modelled.
- `Compose.ComposeScreen.PickImages`, `Compose.ComposeScreen.PickLocation`: each handler is one atomic step on the current list. In the source, these handlers await the platform and then map over the `posts` captured when the handler started, so an edit made while the picker was open would be overwritten. That interleaving is not modelled.
- `Compose.Move`: the drag library hands the new order back as a list. The model takes it to be the list with one item moved from `from` to `to`, which is what that library produces.
- `Compose.CharacterCount`: counts characters (Unicode scalar values), while JavaScript's `length` counts UTF-16 code units, so a character outside the Basic Multilingual Plane counts 2 in the source.
- `Text.ToLower`: lower-cases ASCII and Latin-1 upper-case letters only; JavaScript's full Unicode case mapping (including the characters whose lower case is longer) is not modelled.
- The text input's own 280-character cap (`maxLength` on the TextInput) is a rendering property; the model lets content of any length reach the handlers, as `handleContentChange` itself does.
- `Settings.BatteryIcon`: takes a reading as a real number; a JavaScript `NaN` level fails every comparison and gives `battery-empty`, a case the model does not have. The screen's fixed level of 0.5 never reaches it.
- `Settings.SettingsTable`: states only the table's length; the entries' contents are the table itself, and `BatteryEntryIsHalf` states the computed one.
- The battery subtitle's `Math.round` of a floating-point percentage: the fixed level gives `"50%"`, which the table holds as a constant.
- Translation (`t`), all JSX and styles, navigation-only components, progress counters in the meditation and mindfulness screens, static assets and the empty screens.
- app/(tabs)/notifications.tsx is not part of this model.
