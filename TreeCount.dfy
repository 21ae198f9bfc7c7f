/**
 * count_tree: reduce a snapshot to the four counters `~`, `?`, `✓`, `x`.
 */
module TreeCount {
  import opened StatusData
  import opened HashStatus

  /** The `$statuses` dictionary of count_tree. */
  datatype Counts = Counts(mixed: nat, unseen: nat, good: nat, bad: nat) {
    function Total(): nat
    {
      mixed + unseen + good + bad
    }

    /** `$statuses[$status] += 1` */
    function Bump(s: Symbol): Counts
    {
      match s
      case Mixed => Counts(mixed + 1, unseen, good, bad)
      case Unseen => Counts(mixed, unseen + 1, good, bad)
      case Good => Counts(mixed, unseen, good + 1, bad)
      case Bad => Counts(mixed, unseen, good, bad + 1)
    }

    function Plus(o: Counts): Counts
    {
      Counts(mixed + o.mixed, unseen + o.unseen, good + o.good, bad + o.bad)
    }

    function Get(s: Symbol): nat
    {
      match s
      case Mixed => mixed
      case Unseen => unseen
      case Good => good
      case Bad => bad
    }
  }

  const Zero := Counts(0, 0, 0, 0)

  /** The counters after bumping once per symbol of `s`, starting from zero. */
  function Tally(s: seq<Symbol>): Counts
  {
    if |s| == 0 then Zero else Tally(s[..|s| - 1]).Bump(s[|s| - 1])
  }

  /**
   * The symbols of every file item count_tree reaches, in order: the file
   * items of a folder with a truthy path, and of its truthy sub-folders.
   */
  function Statuses(d: Data): seq<Symbol>
    decreases d, if d.Folder? then |d.contents| + 1 else 0
  {
    if d.Folder? && Truthy(d.folder) then ContentStatuses(d, |d.contents|) else []
  }

  /** The symbols reached through the first `n` items of the folder `d`. */
  function ContentStatuses(d: Data, n: nat): seq<Symbol>
    requires d.Folder? && n <= |d.contents|
    decreases d, n
  {
    if n == 0 then []
    else
      ContentStatuses(d, n - 1) + ItemStatuses(d.contents[n - 1])
  }

  /** The symbols one item of a folder contributes: its own, or its sub-tree's. */
  function ItemStatuses(item: Data): seq<Symbol>
    decreases item, if item.Folder? then |item.contents| + 2 else 1
  {
    if item.File? && Truthy(item.file) then [Verdict(item.hashes)] else Statuses(item)
  }

  /** The number of file items count_tree reaches. */
  function FileItems(d: Data): nat
    decreases d, if d.Folder? then |d.contents| + 1 else 0
  {
    if d.Folder? && Truthy(d.folder) then ContentFileItems(d, |d.contents|) else 0
  }

  function ContentFileItems(d: Data, n: nat): nat
    requires d.Folder? && n <= |d.contents|
    decreases d, n
  {
    if n == 0 then 0
    else
      var item := d.contents[n - 1];
      ContentFileItems(d, n - 1) +
        (if item.File? && Truthy(item.file) then 1 else FileItems(item))
  }

  /**
   * The PHP count_tree: one loop over the folder's items, a recursive call
   * for each sub-folder.
   */
  method CountTree(data: Data) returns (statuses: Counts)
    ensures statuses == Tally(Statuses(data))
    decreases data, 0
  {
    statuses := Zero;
    if data.Folder? && Truthy(data.folder) {
      var i := 0;
      while i < |data.contents|
        invariant 0 <= i <= |data.contents|
        invariant statuses == Tally(ContentStatuses(data, i))
      {
        statuses := CountItem(statuses, data.contents[i]);
        CountStep(data, i);
        i := i + 1;
      }
    }
  }

  /** One pass of count_tree's loop: `item` is counted into `statuses`. */
  method CountItem(statuses: Counts, item: Data) returns (next: Counts)
    ensures next == statuses.Plus(Tally(ItemStatuses(item)))
    decreases item, 1
  {
    if item.File? && Truthy(item.file) {
      var status := Unseen;
      if |item.hashes| > 0 {
        status := ComputeHashStatus(item.hashes);
      }
      next := statuses.Bump(status);
      assert Tally([status]) == Zero.Bump(status);
      BumpIsPlus(statuses, status);
    } else if item.Folder? && Truthy(item.folder) {
      var sub := CountTree(item);
      next := Counts(statuses.mixed + sub.mixed, statuses.unseen + sub.unseen,
                     statuses.good + sub.good, statuses.bad + sub.bad);
    } else {
      next := statuses;
      PlusZero(statuses);
    }
  }

  /** The counters after `n + 1` items are those after `n` plus the next item's. */
  lemma CountStep(d: Data, n: nat)
    requires d.Folder? && n < |d.contents|
    ensures Tally(ContentStatuses(d, n + 1)) ==
      Tally(ContentStatuses(d, n)).Plus(Tally(ItemStatuses(d.contents[n])))
  {
    TallyConcat(ContentStatuses(d, n), ItemStatuses(d.contents[n]));
  }

  /**
   * Each bucket holds the number of occurrences of its symbol, so the
   * buckets add up to the length.
   */
  lemma {:induction false} TallyCounts(s: seq<Symbol>)
    ensures forall sym :: Tally(s).Get(sym) == multiset(s)[sym]
    ensures Tally(s).Total() == |s|
  {
    if |s| > 0 {
      var init := s[..|s| - 1];
      var last := s[|s| - 1];
      TallyCounts(init);
      assert s == init + [last];
      assert multiset(s) == multiset(init) + multiset{last};
      forall sym
        ensures Tally(s).Get(sym) == multiset(s)[sym]
      {
        GetBump(Tally(init), last, sym);
      }
      GetBump(Tally(init), last, last);
    }
  }

  lemma GetBump(x: Counts, s: Symbol, sym: Symbol)
    ensures x.Bump(s).Get(sym) == x.Get(sym) + (if s == sym then 1 else 0)
    ensures x.Bump(s).Total() == x.Total() + 1
  {
  }

  lemma PlusZero(x: Counts)
    ensures x.Plus(Zero) == x
  {
  }

  lemma PlusBump(x: Counts, y: Counts, s: Symbol)
    ensures x.Plus(y).Bump(s) == x.Plus(y.Bump(s))
  {
  }

  /** Counting one more symbol bumps its bucket. */
  lemma TallySnoc(s: seq<Symbol>, sym: Symbol)
    ensures Tally(s + [sym]) == Tally(s).Bump(sym)
  {
    assert (s + [sym])[..|s|] == s;
  }

  /** Counting a concatenation adds the counters. */
  lemma {:induction false} TallyConcat(a: seq<Symbol>, b: seq<Symbol>)
    ensures Tally(a + b) == Tally(a).Plus(Tally(b))
  {
    if |b| > 0 {
      var init := b[..|b| - 1];
      var last := b[|b| - 1];
      TallyConcat(a, init);
      assert (a + b)[..|a + b| - 1] == a + init;
      assert (a + b)[|a + b| - 1] == last;
      assert Tally(a + b) == Tally(a + init).Bump(last);
      PlusBump(Tally(a), Tally(init), last);
    } else {
      assert a + b == a;
      PlusZero(Tally(a));
    }
  }

  /** There is one symbol per file item reached. */
  lemma {:induction false} StatusesLength(d: Data)
    ensures |Statuses(d)| == FileItems(d)
    decreases d, if d.Folder? then |d.contents| + 1 else 0
  {
    if d.Folder? && Truthy(d.folder) {
      ContentStatusesLength(d, |d.contents|);
    }
  }

  lemma {:induction false} ContentStatusesLength(d: Data, n: nat)
    requires d.Folder? && n <= |d.contents|
    ensures |ContentStatuses(d, n)| == ContentFileItems(d, n)
    decreases d, n
  {
    if n > 0 {
      ContentStatusesLength(d, n - 1);
      StatusesLength(d.contents[n - 1]);
    }
  }

  /**
   * The four counters of count_tree add up to the number of file items it
   * reaches; when the input is not a folder they are all zero.
   */
  lemma CountTreeTotal(d: Data)
    ensures Tally(Statuses(d)).Total() == FileItems(d)
    ensures !(d.Folder? && Truthy(d.folder)) ==> Tally(Statuses(d)) == Zero
  {
    TallyCounts(Statuses(d));
    StatusesLength(d);
  }

  /** A folder's counters are the sum of what its items contribute. */
  lemma FolderCounts(path: string, contents: seq<Data>, item: Data)
    requires Truthy(path)
    ensures Tally(Statuses(Folder(path, contents + [item]))) ==
      Tally(Statuses(Folder(path, contents))).Plus(
        if item.File? && Truthy(item.file) then Zero.Bump(Verdict(item.hashes))
        else Tally(Statuses(item)))
  {
    var d := Folder(path, contents + [item]);
    var d0 := Folder(path, contents);
    var n := |contents|;
    ContentStatusesPrefix(d, d0, n);
    var before := ContentStatuses(d0, n);
    assert d.contents[n] == item;
    assert Statuses(d) == ContentStatuses(d, n + 1);
    if item.File? && Truthy(item.file) {
      assert Statuses(d) == before + [Verdict(item.hashes)];
      TallySnoc(before, Verdict(item.hashes));
      BumpIsPlus(Tally(before), Verdict(item.hashes));
    } else {
      assert Statuses(d) == before + Statuses(item);
      TallyConcat(before, Statuses(item));
    }
  }

  lemma BumpIsPlus(x: Counts, s: Symbol)
    ensures x.Bump(s) == x.Plus(Zero.Bump(s))
  {
  }

  lemma {:induction false} ContentStatusesPrefix(d: Data, d0: Data, n: nat)
    requires d.Folder? && d0.Folder? && n <= |d.contents| && n <= |d0.contents|
    requires d.contents[..n] == d0.contents[..n]
    ensures ContentStatuses(d, n) == ContentStatuses(d0, n)
  {
    if n > 0 {
      assert d.contents[..n - 1] == d0.contents[..n - 1];
      assert d.contents[n - 1] == d.contents[..n][n - 1];
      ContentStatusesPrefix(d, d0, n - 1);
    }
  }
}
