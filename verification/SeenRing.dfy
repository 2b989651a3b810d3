/** The viewer's filter: only the active channel, and no message twice, as far as a
    ring of the IDs last rendered can tell. */
module SeenRing {
  import opened Common
  import opened IrcMessages

  const SEEN_MAX: nat := 4096

  /** A message as the connection passes it on; its fields have been cut to their room. */
  datatype Post = Post(target: string, msgid: string, text: string)
  {
    ghost predicate Valid() {
      |msgid| <= FIELD_MAX
    }
  }

  function Lower(ch: char): char {
    if 'A' <= ch <= 'Z' then ch - 'A' + 'a' else ch
  }

  predicate SameName(a: string, b: string) {
    |a| == |b| && forall i :: 0 <= i < |a| ==> Lower(a[i]) == Lower(b[i])
  }

  ghost predicate IsLetter(ch: char) {
    'a' <= ch <= 'z' || 'A' <= ch <= 'Z'
  }

  /** Two names are the same if they differ in nothing but the case of ASCII letters. */
  lemma SameNameIff(a: string, b: string)
    ensures SameName(a, b) <==> |a| == |b| && forall i :: 0 <= i < |a| ==>
      a[i] == b[i] || (IsLetter(a[i]) && IsLetter(b[i]) && (a[i] as int == b[i] as int + 32 || b[i] as int == a[i] as int + 32))
  {
    if |a| == |b| {
      forall i | 0 <= i < |a|
        ensures Lower(a[i]) == Lower(b[i]) <==>
          a[i] == b[i] || (IsLetter(a[i]) && IsLetter(b[i]) && (a[i] as int == b[i] as int + 32 || b[i] as int == a[i] as int + 32))
      {
        SameLetter(a[i], b[i]);
      }
    }
  }

  lemma SameLetter(a: char, b: char)
    ensures Lower(a) == Lower(b) <==>
      a == b || (IsLetter(a) && IsLetter(b) && (a as int == b as int + 32 || b as int == a as int + 32))
  {
  }

  /** The IDs that can still be told apart: the last 4096 of those rendered. */
  function Window(history: seq<string>): seq<string> {
    if |history| <= SEEN_MAX then history else history[|history| - SEEN_MAX..]
  }

  predicate Renders(history: seq<string>, post: Post, channel: string) {
    SameName(post.target, channel) && (post.msgid == "" || post.msgid !in Window(history))
  }

  function Next(history: seq<string>, post: Post, channel: string): seq<string> {
    if Renders(history, post, channel) && post.msgid != "" then history + [post.msgid] else history
  }

  class Viewer {
    const channel: string
    const slots: array<string>
    var head: nat
    var count: nat
    var rendered: seq<Post>
    // the IDs rendered since the beginning
    ghost var history: seq<string>

    ghost predicate Valid()
      reads this, slots
    {
      && slots.Length == SEEN_MAX
      && count == |Window(history)|
      && head == |history| % SEEN_MAX
      && forall j :: |history| - count <= j < |history| ==> slots[j % SEEN_MAX] == history[j]
    }

    constructor (channel: string)
      ensures Valid() && history == [] && rendered == [] && this.channel == channel && fresh(slots)
    {
      this.channel := channel;
      slots := new string[SEEN_MAX](_ => "");
      head, count, rendered, history := 0, 0, [], [];
    }

    /** Looks an ID up by scanning the ring. */
    method Contains(id: string) returns (found: bool)
      requires Valid()
      ensures found == (id in Window(history))
    {
      for i := 0 to count
        invariant forall k :: 0 <= k < i ==> slots[k] != id
      {
        if slots[i] == id {
          SlotIsInWindow(i);
          return true;
        }
      }
      if id in Window(history) {
        ghost var k :| 0 <= k < |Window(history)| && Window(history)[k] == id;
        ghost var j := |history| - count + k;
        assert slots[j % SEEN_MAX] == history[j] == id;
        SlotIsUsed(|history|, count, j);
      }
      found := false;
    }

    lemma SlotIsInWindow(i: nat)
      requires Valid() && i < count
      ensures slots[i] in Window(history)
    {
      var j := LatestAt(|history|, count, i);
      assert slots[i] == history[j];
      assert Window(history)[j - (|history| - count)] == history[j];
    }

    /** Records an ID over the oldest one. */
    method Add(id: string)
      requires Valid()
      modifies this`head, this`count, this`history, slots
      ensures Valid() && history == old(history) + [Cut(id, FIELD_MAX)]
    {
      ghost var n := |history|;
      forall j | n - count <= j < n && n - j < SEEN_MAX
        ensures j % SEEN_MAX != head
      {
        OtherSlot(n, j);
      }
      slots[head] := Cut(id, FIELD_MAX);
      head := (head + 1) % SEEN_MAX;
      NextSlot(n);
      if count < SEEN_MAX { count := count + 1; }
      history := history + [Cut(id, FIELD_MAX)];
    }

    /** Renders a message or drops it. */
    method OnMessage(post: Post)
      requires Valid() && post.Valid()
      modifies this, slots
      ensures Valid()
      ensures rendered == old(rendered) + if old(Renders(history, post, channel)) then [post] else []
      ensures history == old(Next(history, post, channel))
    {
      hide Window, SameName;
      if !SameName(post.target, channel) { return; }
      if |post.msgid| > 0 {
        var seen := Contains(post.msgid);
        if seen { return; }
        Add(post.msgid);
      }
      rendered := rendered + [post];
    }
  }

  /** The history index, among the last count, whose ID is in slot i. */
  lemma LatestAt(n: nat, count: nat, i: nat) returns (j: nat)
    requires count == if n < SEEN_MAX then n else SEEN_MAX
    requires i < count
    ensures n - count <= j < n && j % SEEN_MAX == i
  {
    if n < SEEN_MAX {
      j := i;
    } else if i < n % SEEN_MAX {
      j := n / SEEN_MAX * SEEN_MAX + i;
    } else {
      j := (n / SEEN_MAX - 1) * SEEN_MAX + i;
    }
  }

  lemma SlotIsUsed(n: nat, count: nat, j: nat)
    requires count == (if n < SEEN_MAX then n else SEEN_MAX) && n - count <= j < n
    ensures j % SEEN_MAX < count
  {
  }

  lemma OtherSlot(n: nat, j: nat)
    requires j < n < j + SEEN_MAX
    ensures j % SEEN_MAX != n % SEEN_MAX
  {
  }

  lemma NextSlot(n: nat)
    ensures (n % SEEN_MAX + 1) % SEEN_MAX == (n + 1) % SEEN_MAX
  {
  }

  // ---------- over any run of messages ----------

  function HistoryAfter(history: seq<string>, posts: seq<Post>, channel: string): seq<string> {
    if posts == [] then history
    else Next(HistoryAfter(history, posts[..|posts| - 1], channel), posts[|posts| - 1], channel)
  }

  /** Two renderings of one ID have at least 4096 others between them. */
  ghost predicate FarApart(history: seq<string>) {
    forall i, j :: 0 <= i < j < |history| && history[i] == history[j] ==> j - i > 4096
  }

  lemma NextIsFarApart(history: seq<string>, post: Post, channel: string)
    requires FarApart(history)
    ensures FarApart(Next(history, post, channel))
  {
    hide SameName;
    var next := Next(history, post, channel);
    forall i, j | 0 <= i < j < |next| && next[i] == next[j] ensures j - i > SEEN_MAX {
      if j < |history| {
        assert history[i] == history[j];
      } else if j - i <= SEEN_MAX {
        InWindow(history, i);
      }
    }
  }

  lemma InWindow(history: seq<string>, i: nat)
    requires |history| - SEEN_MAX <= i < |history|
    ensures history[i] in Window(history)
  {
    assert Window(history)[i - (|history| - |Window(history)|)] == history[i];
  }

  lemma NotInWindow(history: seq<string>, i: nat, id: string)
    requires i <= |history| - SEEN_MAX && id !in history[i..]
    ensures id !in Window(history)
  {
    assert Window(history) == history[i..][|history| - SEEN_MAX - i..];
  }

  /** Over any run of messages no ID is rendered again before 4096 others have been. */
  lemma {:induction false} RepeatsAreFarApart(posts: seq<Post>, channel: string)
    ensures FarApart(HistoryAfter([], posts, channel))
    decreases |posts|
  {
    hide Next;
    if posts != [] {
      RepeatsAreFarApart(posts[..|posts| - 1], channel);
      NextIsFarApart(HistoryAfter([], posts[..|posts| - 1], channel), posts[|posts| - 1], channel);
    }
  }

  /** The IDs in the ring are all different. */
  lemma WindowIsDistinct(history: seq<string>)
    requires FarApart(history)
    ensures forall i, j :: 0 <= i < j < |Window(history)| ==> Window(history)[i] != Window(history)[j]
  {
    var first := |history| - |Window(history)|;
    forall i, j | 0 <= i < j < |Window(history)| ensures Window(history)[i] != Window(history)[j] {
      assert Window(history)[i] == history[first + i] && Window(history)[j] == history[first + j];
    }
  }

  /** A message whose ID was last rendered at some point is rendered again exactly when
      4096 others have been since. */
  lemma ForgottenIff(history: seq<string>, k: nat, post: Post, channel: string)
    requires k < |history| && SameName(post.target, channel)
    requires post.msgid == history[k] != "" && post.msgid !in history[k + 1..]
    ensures Renders(history, post, channel) <==> |history| - (k + 1) >= 4096
  {
    hide Window;
    if |history| - (k + 1) >= SEEN_MAX {
      NotInWindow(history, k + 1, post.msgid);
    } else {
      InWindow(history, k);
    }
  }

  /** Replaying messages while no more than 4096 IDs have ever been rendered renders none
      of them again, except those without an ID. */
  lemma {:induction false} ReplayIsDropped(posts: seq<Post>, channel: string, k: nat)
    requires |HistoryAfter([], posts, channel)| <= 4096 && k < |posts|
    ensures Renders(HistoryAfter([], posts, channel), posts[k], channel) ==> posts[k].msgid == ""
    decreases |posts|
  {
    hide SameName;
    var front, last := posts[..|posts| - 1], posts[|posts| - 1];
    var h, next := HistoryAfter([], front, channel), HistoryAfter([], posts, channel);
    if k < |front| {
      ReplayIsDropped(front, channel, k);
      if posts[k].msgid in h {
        assert posts[k].msgid in next;
      }
    } else if SameName(last.target, channel) && last.msgid != "" && last.msgid !in h {
      assert next[|h|] == last.msgid;
    }
  }
}
