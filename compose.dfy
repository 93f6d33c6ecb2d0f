/**
 * The thread composer screen: a list of draft posts, edited by id, extended
 * at the end, reordered by dragging, and published as local notifications.
 */
module Compose {
  import opened Lists
  import opened Text

  /** The character limit shown under each post and enforced by the Post button. */
  const MaxLength := 280

  datatype Post = Post(id: int, content: string, images: seq<string>, location: string)

  /** A fresh draft: no text, no images, no location. */
  function BlankPost(id: int): Post {
    Post(id, "", [], "")
  }

  /** Some post in `ps` carries the key `id`. */
  predicate HasId(ps: seq<Post>, id: int) {
    exists i :: 0 <= i < |ps| && ps[i].id == id
  }

  /**
   * The ids are distinct and lie in 1..|ps|; the list renders each post under
   * its id as key, so the keys must be unique.
   */
  predicate WellKeyed(ps: seq<Post>) {
    && (forall i :: 0 <= i < |ps| ==> 1 <= ps[i].id <= |ps|)
    && (forall i, j :: 0 <= i < j < |ps| ==> ps[i].id != ps[j].id)
  }

  /** Removing the post with the largest id leaves a well-keyed list. */
  lemma RemoveLargestKey(ps: seq<Post>, k: int)
    requires WellKeyed(ps) && 0 <= k < |ps| && ps[k].id == |ps|
    ensures WellKeyed(ps[..k] + ps[k + 1..])
  {
    var t := ps[..k] + ps[k + 1..];
    forall i | 0 <= i < |t| ensures t[i] == ps[if i < k then i else i + 1] {
    }
    forall i | 0 <= i < |t| ensures 1 <= t[i].id <= |t| {
      var a := if i < k then i else i + 1;
      if a < k { assert ps[a].id != ps[k].id; } else { assert ps[k].id != ps[a].id; }
    }
    forall i, j | 0 <= i < j < |t| ensures t[i].id != t[j].id {
      var a, b := if i < k then i else i + 1, if j < k then j else j + 1;
      assert a < b && ps[a].id != ps[b].id;
    }
  }

  /** Without the largest id, dropping the last post leaves a well-keyed list. */
  lemma DropLastWithoutLargestKey(ps: seq<Post>)
    requires WellKeyed(ps) && |ps| > 0 && !HasId(ps, |ps|)
    ensures WellKeyed(ps[..|ps| - 1])
  {
    var t := ps[..|ps| - 1];
    forall i | 0 <= i < |t| ensures 1 <= t[i].id <= |t| {
      assert t[i] == ps[i] && ps[i].id != |ps|;
    }
  }

  /** Distinct ids within 1..n take every value of 1..n: the ids are a permutation of 1..n. */
  lemma {:induction false} WellKeyedCoversRange(ps: seq<Post>, v: int)
    requires WellKeyed(ps)
    requires 1 <= v <= |ps|
    ensures HasId(ps, v)
    decreases |ps|
  {
    var n := |ps|;
    if HasId(ps, n) {
      var k :| 0 <= k < n && ps[k].id == n;
      if v != n {
        var t := ps[..k] + ps[k + 1..];
        RemoveLargestKey(ps, k);
        WellKeyedCoversRange(t, v);
        var j :| 0 <= j < |t| && t[j].id == v;
        assert t[j] == ps[if j < k then j else j + 1];
      }
    } else {
      // Without id n, the first n - 1 posts already use every id of 1..n-1,
      // so the last post's id would repeat one of them.
      DropLastWithoutLargestKey(ps);
      WellKeyedCoversRange(ps[..n - 1], ps[n - 1].id);
    }
  }

  /** The screen opens with one empty draft whose id is 1. */
  function InitialPosts(): (r: seq<Post>)
    ensures |r| == 1 && WellKeyed(r)
    ensures HasId(r, 1) && r[0].content == "" && r[0].images == [] && r[0].location == ""
  {
    var r := [BlankPost(1)];
    assert r[0].id == 1;
    r
  }

  /** The by-id updates the composer performs: new text, new images, a new location. */
  datatype Edit = SetContent(content: string) | SetImages(images: seq<string>) | SetLocation(location: string)

  function Apply(p: Post, e: Edit): (r: Post)
    ensures r.id == p.id
  {
    match e
    case SetContent(c) => p.(content := c)
    case SetImages(uris) => p.(images := uris)
    case SetLocation(loc) => p.(location := loc)
  }

  /** Every post whose id equals `id` gets the edit; every other post is kept as it is. */
  function UpdateById(ps: seq<Post>, id: int, e: Edit): (r: seq<Post>)
    ensures |r| == |ps|
    ensures forall i :: 0 <= i < |ps| ==> r[i].id == ps[i].id
    ensures forall i :: 0 <= i < |ps| && ps[i].id != id ==> r[i] == ps[i]
    ensures forall i :: 0 <= i < |ps| && ps[i].id == id ==> r[i] == Apply(ps[i], e)
  {
    if ps == [] then []
    else
      var rest := UpdateById(ps[1..], id, e);
      [if ps[0].id == id then Apply(ps[0], e) else ps[0]] + rest
  }

  /** With unique keys, an update by id changes exactly the one post with that id. */
  lemma UpdateChangesOnlyTarget(ps: seq<Post>, id: int, e: Edit, k: int)
    requires WellKeyed(ps) && 0 <= k < |ps| && ps[k].id == id
    ensures UpdateById(ps, id, e) == ps[k := Apply(ps[k], e)]
  {
    var r := UpdateById(ps, id, e);
    forall i | 0 <= i < |ps| ensures r[i] == ps[k := Apply(ps[k], e)][i] {
      if i != k {
        assert ps[i].id != id by {
          if i < k { assert ps[i].id != ps[k].id; } else { assert ps[k].id != ps[i].id; }
        }
      }
    }
  }

  /** An update for an id no post has changes nothing. */
  lemma UpdateMissingIdIsIdentity(ps: seq<Post>, id: int, e: Edit)
    requires !HasId(ps, id)
    ensures UpdateById(ps, id, e) == ps
  {
    var r := UpdateById(ps, id, e);
    forall i | 0 <= i < |ps| ensures r[i] == ps[i] {
      assert ps[i].id != id;
    }
  }

  /** `addNewPost`: a blank draft keyed one past the current length, added at the end. */
  function AppendNew(ps: seq<Post>): (r: seq<Post>)
    ensures |r| == |ps| + 1 && r[..|ps|] == ps
    ensures r[|ps|].id == |ps| + 1 && r[|ps|].content == ""
    ensures r[|ps|].images == [] && r[|ps|].location == ""
    ensures WellKeyed(ps) ==> WellKeyed(r)
  {
    ps + [BlankPost(|ps| + 1)]
  }

  /** Where the element at position `i` after moving `from` to `to` came from. */
  function MoveSource(from: nat, to: nat, i: nat): nat {
    if i == to then from
    else
      var k := if i < to then i else i - 1;
      if k < from then k else k + 1
  }

  /**
   * The reordered list a drag hands back: the element at `from` is taken out
   * and reinserted at position `to`.
   */
  function Move<T>(s: seq<T>, from: nat, to: nat): (r: seq<T>)
    requires from < |s| && to < |s|
    ensures |r| == |s| && r[to] == s[from]
    ensures forall i :: 0 <= i < |s| ==> MoveSource(from, to, i) < |s| && r[i] == s[MoveSource(from, to, i)]
  {
    var rest := s[..from] + s[from + 1..];
    rest[..to] + [s[from]] + rest[to..]
  }

  /** A move only reorders: the same elements, each as often as before. */
  lemma MovePermutes<T>(s: seq<T>, from: nat, to: nat)
    requires from < |s| && to < |s|
    ensures multiset(Move(s, from, to)) == multiset(s)
  {
    var rest := s[..from] + s[from + 1..];
    var r := Move(s, from, to);
    assert r == rest[..to] + [s[from]] + rest[to..];
    assert s == s[..from] + [s[from]] + s[from + 1..];
    assert rest == rest[..to] + rest[to..];
    assert multiset(s[..from] + [s[from]]) == multiset(s[..from]) + multiset{s[from]};
    assert multiset(s) == multiset(s[..from] + [s[from]]) + multiset(s[from + 1..]);
    assert multiset(rest) == multiset(s[..from]) + multiset(s[from + 1..]);
    assert multiset(rest) == multiset(rest[..to]) + multiset(rest[to..]);
    assert multiset(rest[..to] + [s[from]]) == multiset(rest[..to]) + multiset{s[from]};
    assert multiset(r) == multiset(rest[..to] + [s[from]]) + multiset(rest[to..]);
    assert multiset(r) == multiset(rest) + multiset{s[from]};
    assert multiset(s) == multiset(rest) + multiset{s[from]};
  }

  /** Distinct positions after a move come from distinct positions before it. */
  lemma MoveSourceInjective(from: nat, to: nat, i: nat, j: nat)
    requires i != j
    ensures MoveSource(from, to, i) != MoveSource(from, to, j)
  {
  }

  /** Reordering keeps the keys unique and within 1..n. */
  lemma MoveKeepsKeys(ps: seq<Post>, from: nat, to: nat)
    requires WellKeyed(ps) && from < |ps| && to < |ps|
    ensures WellKeyed(Move(ps, from, to))
  {
    var r := Move(ps, from, to);
    forall i, j | 0 <= i < j < |r| ensures r[i].id != r[j].id {
      MoveSourceInjective(from, to, i, j);
      var a, b := MoveSource(from, to, i), MoveSource(from, to, j);
      if a < b { assert ps[a].id != ps[b].id; } else { assert ps[b].id != ps[a].id; }
    }
  }

  /** The post still has text once white space is trimmed from both ends. */
  predicate HasText(p: Post) {
    |Trim(p.content)| > 0
  }

  /** A post has text exactly when some character of it is not white space. */
  lemma HasTextIffNotBlank(p: Post)
    ensures HasText(p) <==> !IsBlank(p.content)
  {
    TrimEmptyIffBlank(p.content);
  }

  /** The posts `handlePost` publishes: those with text, in list order. */
  function ValidPosts(ps: seq<Post>): (r: seq<Post>)
    ensures IsSubsequence(r, ps)
  {
    FilterIsSubsequence(HasText, ps);
    Filter(HasText, ps)
  }

  /** A post is published exactly when it is in the list and has text. */
  lemma ValidPostsMembership(ps: seq<Post>, p: Post)
    ensures p in ValidPosts(ps) <==> p in ps && HasText(p)
  {
    FilterMembership(HasText, ps, p);
  }

  /** Posts with distinct ids are distinct, so each occurs once. */
  lemma {:induction false} DistinctIdsOccurOnce(ps: seq<Post>, p: Post)
    requires forall i, j :: 0 <= i < j < |ps| ==> ps[i].id != ps[j].id
    requires p in ps
    ensures multiset(ps)[p] == 1
  {
    assert ps == [ps[0]] + ps[1..];
    assert multiset(ps) == multiset{ps[0]} + multiset(ps[1..]);
    if ps[0] == p {
      assert p !in ps[1..] by {
        forall i | 0 <= i < |ps[1..]| ensures ps[1..][i] != p {
          assert ps[0].id != ps[i + 1].id;
        }
      }
    } else {
      DistinctIdsOccurOnce(ps[1..], p);
    }
  }

  /**
   * With unique keys, every post with text is published exactly once and
   * every other post not at all.
   */
  lemma PublishedOnce(ps: seq<Post>, p: Post)
    requires WellKeyed(ps)
    ensures multiset(ValidPosts(ps))[p] == if p in ps && HasText(p) then 1 else 0
  {
    FilterCount(HasText, ps, p);
    if p in ps {
      DistinctIdsOccurOnce(ps, p);
    }
  }

  /** Nothing is published exactly when every post is blank. */
  lemma ValidPostsEmpty(ps: seq<Post>)
    ensures ValidPosts(ps) == [] <==> forall p :: p in ps ==> !HasText(p)
  {
    FilterEmpty(HasText, ps);
  }

  /** The character count shown under a post. */
  /** The counter counts every character, the white space `trim` would drop included. */
  function CharacterCount(p: Post): (n: nat)
    ensures |Trim(p.content)| <= n
    ensures n == 0 <==> p.content == ""
  {
    |p.content|
  }

  /**
   * The counter's warning state. A post can be over the limit while having no
   * text at all (281 spaces, say); a post within it fits the limit trimmed too.
   */
  function IsOverLimit(p: Post): (r: bool)
    ensures r ==> p.content != ""
    ensures !r ==> |Trim(p.content)| <= MaxLength
  {
    CharacterCount(p) > MaxLength
  }

  /**
   * The Post button's `disabled` expression: every post is blank after
   * trimming, or some post is longer than the limit. That is, there is
   * nothing to publish or some post is over the limit.
   */
  function PostDisabled(ps: seq<Post>): (r: bool)
    ensures r <==> ValidPosts(ps) == [] || exists p :: p in ps && IsOverLimit(p)
    ensures ps == [] ==> r
  {
    ValidPostsEmpty(ps);
    (forall p :: p in ps ==> !HasText(p)) || (exists p :: p in ps && IsOverLimit(p))
  }

  /**
   * The button is enabled exactly when there is something to publish and
   * every post fits the limit.
   */
  lemma PostEnabledIff(ps: seq<Post>)
    ensures !PostDisabled(ps) <==>
      ValidPosts(ps) != [] && forall p :: p in ps ==> |p.content| <= MaxLength
  {
    ValidPostsEmpty(ps);
  }

  /** One post over the limit disables publishing, whatever the others hold. */
  lemma OverLimitDisables(ps: seq<Post>, k: int)
    requires 0 <= k < |ps| && |ps[k].content| > MaxLength
    ensures PostDisabled(ps)
  {
    assert ps[k] in ps && IsOverLimit(ps[k]);
  }

  /** A local notification: the title and body handed to `createNotification`. */
  datatype Notice = Notice(title: string, body: string)

  /** The notice `handlePost` sends for a post. */
  function Announcement(p: Post): Notice {
    Notice("Post Created", "Your post: \"" + p.content + "\" has been successfully created.")
  }

  /**
   * Every notice has the same title, and its body quotes the post's text
   * verbatim after `Your post: "`, so posts with different text get
   * different notices.
   */
  lemma AnnouncementQuotesPost(p: Post, q: Post)
    ensures Announcement(p).title == "Post Created"
    ensures |Announcement(p).body| == |p.content| + 44
    ensures Announcement(p).body[12..12 + |p.content|] == p.content
    ensures Announcement(p) == Announcement(q) <==> p.content == q.content
  {
    var b, c := Announcement(p).body, Announcement(q).body;
    if b == c {
      assert |p.content| == |q.content|;
      assert p.content == b[12..12 + |p.content|];
    }
  }

  /**
   * What the image library hands back: a cancellation, the chosen images'
   * URIs, or a rejected call.
   */
  datatype ImagePick = Canceled | Picked(uris: seq<string>) | PickerFailed

  /**
   * What the location request yields: a refusal, the formatted coordinates,
   * or a rejected call (the permission request or the position lookup).
   */
  datatype LocationFix = Denied | Granted(location: string) | LocationFailed

  /**
   * How the platform answers `createNotification`: every call succeeds, or
   * the call for the published post at `index` (counting from 0) rejects.
   */
  datatype Delivery = AllAccepted | RejectedAt(index: nat)

  /** All of the first `n` calls succeed. */
  predicate Completes(d: Delivery, n: nat) {
    !(d.RejectedAt? && d.index < n)
  }

  const LocationDeniedAlert := "Permission to access location was denied"

  /** The screen's `posts` state; every handler replaces it through `setPosts`. */
  class ComposeScreen {
    var posts: seq<Post>

    ghost predicate Valid()
      reads this
    {
      WellKeyed(posts)
    }

    constructor ()
      ensures Valid() && posts == InitialPosts()
    {
      posts := InitialPosts();
    }

    /** `handleContentChange`: new text for the post with the given id. */
    method HandleContentChange(id: int, content: string)
      requires Valid()
      modifies this
      ensures Valid() && posts == UpdateById(old(posts), id, SetContent(content))
    {
      posts := UpdateById(posts, id, SetContent(content));
    }

    /** `addNewPost`: one more blank draft at the end. */
    method AddNewPost()
      requires Valid()
      modifies this
      ensures Valid() && posts == AppendNew(old(posts))
    {
      posts := AppendNew(posts);
    }

    /** `pickImages`, given what the image library returned. */
    method PickImages(id: int, pick: ImagePick)
      requires Valid()
      modifies this
      ensures Valid()
      ensures !pick.Picked? ==> posts == old(posts)
      ensures pick.Picked? ==> posts == UpdateById(old(posts), id, SetImages(pick.uris))
    {
      if pick.Picked? {
        posts := UpdateById(posts, id, SetImages(pick.uris));
      }
    }

    /** `pickLocation`, given the permission outcome and the formatted position. */
    method PickLocation(id: int, fix: LocationFix) returns (alerts: seq<string>)
      requires Valid()
      modifies this
      ensures Valid()
      ensures fix.Denied? ==> posts == old(posts) && alerts == [LocationDeniedAlert]
      ensures fix.Granted? ==> posts == UpdateById(old(posts), id, SetLocation(fix.location)) && alerts == []
      ensures fix.LocationFailed? ==> posts == old(posts) && alerts == []
    {
      if fix.Denied? {
        alerts := [LocationDeniedAlert];
        return;
      }
      alerts := [];
      if fix.Granted? {
        posts := UpdateById(posts, id, SetLocation(fix.location));
      }
    }

    /** `onDragEnd`: the list takes the order the drag produced. */
    method OnDragEnd(from: nat, to: nat)
      requires Valid() && from < |posts| && to < |posts|
      modifies this
      ensures Valid() && posts == Move(old(posts), from, to)
      ensures multiset(posts) == multiset(old(posts))
    {
      MoveKeepsKeys(posts, from, to);
      MovePermutes(posts, from, to);
      posts := Move(posts, from, to);
    }

    /**
     * `handlePost`: one notification per post with text, in list order,
     * then back navigation if there was at least one. A rejected call ends
     * the handler: the notices before it are sent and there is no navigation.
     */
    method HandlePost(delivery: Delivery) returns (sent: seq<Notice>, navigatedBack: bool)
      ensures |sent| <= |ValidPosts(posts)|
      ensures forall k :: 0 <= k < |sent| ==> sent[k] == Announcement(ValidPosts(posts)[k])
      ensures Completes(delivery, |ValidPosts(posts)|) ==> |sent| == |ValidPosts(posts)|
      ensures !Completes(delivery, |ValidPosts(posts)|) ==> |sent| == delivery.index
      ensures navigatedBack <==>
        Completes(delivery, |ValidPosts(posts)|) && exists p :: p in posts && HasText(p)
    {
      var validPosts := ValidPosts(posts);
      sent := [];
      navigatedBack := false;
      if |validPosts| > 0 {
        for i := 0 to |validPosts|
          invariant |sent| == i
          invariant forall k :: 0 <= k < i ==> sent[k] == Announcement(validPosts[k])
          invariant Completes(delivery, i)
        {
          if delivery.RejectedAt? && delivery.index == i {
            return;
          }
          var notice := Announcement(validPosts[i]);
          assert forall k :: 0 <= k < i ==> (sent + [notice])[k] == sent[k];
          sent := sent + [notice];
        }
        navigatedBack := true;
      }
      ValidPostsEmpty(posts);
    }
  }
}
