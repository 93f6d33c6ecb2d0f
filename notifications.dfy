/**
 * The notifications screen: a fixed list of notifications, an unread count
 * taken when the screen opens, and two switches that hide likes and reposts.
 */
module Notifications {
  import opened Lists

  datatype User = User(name: string, avatar: string)

  datatype Notification = Notification(
    id: string, kind: string, user: User, content: string, timestamp: string, read: bool)

  /** The `notifications` the screen ships with; their ids, the list keys, are distinct. */
  function ShippedNotifications(): (r: seq<Notification>)
    ensures |r| == 2
    ensures forall i, j :: 0 <= i < j < |r| ==> r[i].id != r[j].id
  {
    [
      Notification("1", "like", User("Jane Smith", "https://via.placeholder.com/50"),
        "liked your Post", "2h ago", false),
      Notification("2", "repost", User("Bob Johnson", "https://via.placeholder.com/50"),
        "reposted your Post", "4h ago", true)
    ]
  }

  predicate IsUnread(n: Notification) {
    !n.read
  }

  /** How many notifications are unread: the initial `unreadCount`. */
  function UnreadCount(ns: seq<Notification>): (r: nat)
    ensures r <= |ns|
    ensures r == 0 <==> forall n :: n in ns ==> n.read
  {
    FilterEmpty(IsUnread, ns);
    |Filter(IsUnread, ns)|
  }

  /** Counting unread notifications one by one from the front. */
  lemma {:induction false} UnreadCountStep(ns: seq<Notification>)
    requires ns != []
    ensures UnreadCount(ns) == (if ns[0].read then 0 else 1) + UnreadCount(ns[1..])
  {
  }

  /** Of the shipped notifications exactly one is unread. */
  lemma ShippedUnreadCount()
    ensures UnreadCount(ShippedNotifications()) == 1
  {
    var ns := ShippedNotifications();
    UnreadCountStep(ns);
    UnreadCountStep(ns[1..]);
    assert ns[1..][1..] == [];
  }

  /** The `filters` state: one switch per notification kind that can be hidden. */
  datatype Filters = Filters(showLikes: bool, showReposts: bool)

  /** The screen opens with both kinds shown. */
  const InitialFilters := Filters(true, true)

  /** The keys of `filters`, as `handleFilterChange` receives them. */
  datatype FilterKey = ShowLikes | ShowReposts

  function Flag(f: Filters, key: FilterKey): bool {
    match key
    case ShowLikes => f.showLikes
    case ShowReposts => f.showReposts
  }

  function Other(key: FilterKey): (r: FilterKey)
    ensures r != key
  {
    match key
    case ShowLikes => ShowReposts
    case ShowReposts => ShowLikes
  }

  /** `handleFilterChange`: the named switch takes the new value, the other keeps its own. */
  function HandleFilterChange(prev: Filters, key: FilterKey, value: bool): (r: Filters)
    ensures Flag(r, key) == value
    ensures Flag(r, Other(key)) == Flag(prev, Other(key))
  {
    match key
    case ShowLikes => prev.(showLikes := value)
    case ShowReposts => prev.(showReposts := value)
  }

  /**
   * The test `filteredNotifications` applies to each notification: a like
   * passes exactly when likes are shown, a repost exactly when reposts are,
   * and any other kind always.
   */
  function Shown(f: Filters, n: Notification): (r: bool)
    ensures r <==> (n.kind == "like" ==> f.showLikes) && (n.kind == "repost" ==> f.showReposts)
  {
    if !f.showLikes && n.kind == "like" then false
    else if !f.showReposts && n.kind == "repost" then false
    else true
  }

  /** `Shown` under fixed switches, as the test handed to `filter`. */
  function ShownUnder(f: Filters): Notification -> bool {
    n => Shown(f, n)
  }

  /** `filteredNotifications`: the notifications the switches let through, in order. */
  function FilteredNotifications(f: Filters, ns: seq<Notification>): (r: seq<Notification>)
    ensures IsSubsequence(r, ns)
    ensures !f.showLikes ==> forall n :: n in r ==> n.kind != "like"
    ensures !f.showReposts ==> forall n :: n in r ==> n.kind != "repost"
  {
    FilterIsSubsequence(ShownUnder(f), ns);
    Filter(ShownUnder(f), ns)
  }

  /**
   * A notification is listed exactly when it is in the list and its kind is
   * not switched off: likes while likes are shown, reposts while reposts are.
   */
  lemma FilteredNotificationsMembership(f: Filters, ns: seq<Notification>, n: Notification)
    ensures n in FilteredNotifications(f, ns) <==>
      n in ns && (n.kind == "like" ==> f.showLikes) && (n.kind == "repost" ==> f.showReposts)
  {
    FilterMembership(ShownUnder(f), ns, n);
  }

  /** A notification of any other kind is shown whatever the switches say. */
  lemma OtherKindsAlwaysShown(f: Filters, ns: seq<Notification>, n: Notification)
    requires n in ns && n.kind != "like" && n.kind != "repost"
    ensures n in FilteredNotifications(f, ns)
  {
    FilterMembership(ShownUnder(f), ns, n);
  }

  /** With both switches on, the whole list is shown. */
  lemma AllShownInitially(ns: seq<Notification>)
    ensures FilteredNotifications(InitialFilters, ns) == ns
  {
    FilterKeepsAll(ShownUnder(InitialFilters), ns);
  }

  /** Every switch that is on in `a` is on in `b`. */
  predicate AtMostAsStrict(a: Filters, b: Filters) {
    (a.showLikes ==> b.showLikes) && (a.showReposts ==> b.showReposts)
  }

  /** Turning switches on only adds notifications, and keeps their order. */
  lemma FilterMonotoneInFlags(a: Filters, b: Filters, ns: seq<Notification>)
    requires AtMostAsStrict(a, b)
    ensures IsSubsequence(FilteredNotifications(a, ns), FilteredNotifications(b, ns))
  {
    FilterMonotone(ShownUnder(a), ShownUnder(b), ns);
  }

  /** Switching a kind on never hides a notification that was shown. */
  lemma SwitchOnNeverHides(f: Filters, key: FilterKey, ns: seq<Notification>)
    ensures IsSubsequence(FilteredNotifications(f, ns), FilteredNotifications(HandleFilterChange(f, key, true), ns))
  {
    FilterMonotoneInFlags(f, HandleFilterChange(f, key, true), ns);
  }
}
