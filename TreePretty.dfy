/**
 * prettify_tree: turn a snapshot into the nested array the tree renderer
 * draws. A PHP array here mixes list entries (one marked-up line per file)
 * with string keys `"<name>/"` (one per sub-folder); assigning a string key
 * that is already present replaces its value where it stands.
 */
module TreePretty {
  import opened StatusData
  import opened HashStatus

  /** One entry of the prettified array: a list line, or a keyed sub-array. */
  datatype Pretty = Line(text: string) | Branch(key: string, sub: seq<Pretty>)

  /** The `n` characters of `r` from position `i`. */
  function SliceAt(r: string, i: nat, n: nat): string
    requires i + n <= |r|
  {
    r[i..i + n]
  }

  /** Some slice of `r` is `text`. */
  predicate Contains(r: string, text: string)
  {
    exists i: nat :: i + |text| <= |r| && SliceAt(r, i, |text|) == text
  }

  /** `sprintf($this->status_markup[$status], $text)`: the text, wrapped in the symbol's tag. */
  function Markup(s: Symbol, text: string): (r: string)
    ensures Contains(r, text)
  {
    var (pre, post) := match s
      case Unseen => ("<comment>", "</comment>")
      case Mixed => ("<mixed>", "</mixed>")
      case Bad => ("<bad>", "</bad>")
      case Good => ("<info>", "</info>");
    var r := pre + text + post;
    assert SliceAt(r, |pre|, |text|) == text;
    r
  }

  /**
   * The line for a file item: its last path segment, a space, its glyph,
   * marked up with its symbol's tag.
   */
  function FileLine(item: Data): (line: string)
    requires item.File?
    ensures Contains(line, AfterLast(item.file, '/') + " " + Glyph(Verdict(item.hashes)))
  {
    var status := Verdict(item.hashes);
    Markup(status, AfterLast(item.file, '/') + " " + Glyph(status))
  }

  /** The key of a sub-folder: its last path segment and a slash. */
  function FolderKey(item: Data): (k: string)
    requires item.Folder?
    ensures |k| > 0 && k[|k| - 1] == '/'
  {
    AfterLast(item.folder, '/') + "/"
  }

  /** The list lines of a prettified array, in order. */
  function Lines(r: seq<Pretty>): seq<string>
  {
    if |r| == 0 then []
    else Lines(r[..|r| - 1]) + (if r[|r| - 1].Line? then [r[|r| - 1].text] else [])
  }

  /** The string keys of a prettified array. */
  function Keys(r: seq<Pretty>): set<string>
  {
    set i | 0 <= i < |r| && r[i].Branch? :: r[i].key
  }

  /** No string key occurs twice: what a PHP array guarantees. */
  predicate UniqueKeys(r: seq<Pretty>)
  {
    forall i, j :: 0 <= i < j < |r| && r[i].Branch? && r[j].Branch? ==> r[i].key != r[j].key
  }

  /** The position of the first entry at or after `i` keyed `key`, or `|arr|` if none is. */
  function KeyIndex(arr: seq<Pretty>, key: string, i: nat): (j: nat)
    requires i <= |arr|
    ensures i <= j <= |arr|
    ensures j < |arr| ==> arr[j].Branch? && arr[j].key == key
    ensures forall k :: i <= k < j ==> !(arr[k].Branch? && arr[k].key == key)
    decreases |arr| - i
  {
    if i == |arr| then i
    else if arr[i].Branch? && arr[i].key == key then i
    else KeyIndex(arr, key, i + 1)
  }

  /**
   * `$arr[$key] = $sub`: replace the value under `key` in place if the key
   * is present, append it otherwise. List lines are untouched.
   */
  function Put(arr: seq<Pretty>, key: string, sub: seq<Pretty>): seq<Pretty>
  {
    var j := KeyIndex(arr, key, 0);
    if j == |arr| then arr + [Branch(key, sub)] else arr[j := Branch(key, sub)]
  }

  /** The keys after one more entry. */
  lemma KeysSnoc(r: seq<Pretty>, x: Pretty)
    ensures Keys(r + [x]) == Keys(r) + (if x.Branch? then {x.key} else {})
  {
    var t := r + [x];
    forall k | k in Keys(t)
      ensures k in Keys(r) + (if x.Branch? then {x.key} else {})
    {
      var i :| 0 <= i < |t| && t[i].Branch? && t[i].key == k;
      if i < |r| {
        assert r[i] == t[i];
      }
    }
    forall k | k in Keys(r)
      ensures k in Keys(t)
    {
      var i :| 0 <= i < |r| && r[i].Branch? && r[i].key == k;
      assert t[i] == r[i];
    }
    if x.Branch? {
      assert t[|r|] == x;
    }
  }

  /** Overwriting one keyed entry with another under the same key keeps the keys. */
  lemma KeysUpdate(r: seq<Pretty>, j: nat, x: Pretty)
    requires j < |r| && r[j].Branch? && x.Branch? && x.key == r[j].key
    ensures Keys(r[j := x]) == Keys(r)
  {
    var t := r[j := x];
    forall k | k in Keys(t)
      ensures k in Keys(r)
    {
      var i :| 0 <= i < |t| && t[i].Branch? && t[i].key == k;
      assert r[i].Branch? && r[i].key == k;
    }
    forall k | k in Keys(r)
      ensures k in Keys(t)
    {
      var i :| 0 <= i < |r| && r[i].Branch? && r[i].key == k;
      assert t[i].Branch? && t[i].key == k;
    }
  }

  /** Overwriting a keyed entry with another keeps the lines. */
  lemma {:induction false} LinesUpdate(r: seq<Pretty>, j: nat, x: Pretty)
    requires j < |r| && r[j].Branch? && x.Branch?
    ensures Lines(r[j := x]) == Lines(r)
  {
    var t := r[j := x];
    var n := |r| - 1;
    if j < n {
      assert t[..n] == r[..n][j := x];
      LinesUpdate(r[..n], j, x);
    } else {
      assert t[..n] == r[..n];
    }
  }

  /** A key that is not yet present is appended after everything else. */
  lemma PutAppends(arr: seq<Pretty>, key: string, sub: seq<Pretty>)
    requires key !in Keys(arr)
    ensures Put(arr, key, sub) == arr + [Branch(key, sub)]
  {
    var j := KeyIndex(arr, key, 0);
  }

  /**
   * A key that is present keeps its position: the entry under it gets the
   * new value and every other entry stays where it is.
   */
  lemma PutReplaces(arr: seq<Pretty>, key: string, sub: seq<Pretty>)
    requires UniqueKeys(arr) && key in Keys(arr)
    ensures |Put(arr, key, sub)| == |arr|
    ensures forall i :: 0 <= i < |arr| ==>
      Put(arr, key, sub)[i] == if arr[i].Branch? && arr[i].key == key then Branch(key, sub) else arr[i]
  {
    var j := KeyIndex(arr, key, 0);
    var i0 :| 0 <= i0 < |arr| && arr[i0].Branch? && arr[i0].key == key;
    assert j < |arr|;
  }

  lemma PutLines(arr: seq<Pretty>, key: string, sub: seq<Pretty>)
    ensures Lines(Put(arr, key, sub)) == Lines(arr)
  {
    var j := KeyIndex(arr, key, 0);
    if j == |arr| {
      assert (arr + [Branch(key, sub)])[..|arr|] == arr;
      assert Lines(arr + [Branch(key, sub)]) == Lines(arr) + [];
    } else {
      LinesUpdate(arr, j, Branch(key, sub));
    }
  }

  lemma PutKeys(arr: seq<Pretty>, key: string, sub: seq<Pretty>)
    ensures Keys(Put(arr, key, sub)) == Keys(arr) + {key}
  {
    var j := KeyIndex(arr, key, 0);
    if j == |arr| {
      KeysSnoc(arr, Branch(key, sub));
    } else {
      KeysUpdate(arr, j, Branch(key, sub));
      assert arr[j].key in Keys(arr);
    }
  }

  lemma PutUnique(arr: seq<Pretty>, key: string, sub: seq<Pretty>)
    requires UniqueKeys(arr)
    ensures UniqueKeys(Put(arr, key, sub))
  {
    var j := KeyIndex(arr, key, 0);
    var r := Put(arr, key, sub);
    if j == |arr| {
      forall a, b | 0 <= a < b < |r| && r[a].Branch? && r[b].Branch?
        ensures r[a].key != r[b].key
      {
        if b == |arr| {
          assert r[a] == arr[a];
        } else {
          assert r[a] == arr[a] && r[b] == arr[b];
        }
      }
    } else {
      forall a, b | 0 <= a < b < |r| && r[a].Branch? && r[b].Branch?
        ensures r[a].key != r[b].key
      {
        assert r[a].key == arr[a].key && r[b].key == arr[b].key;
      }
    }
  }

  /**
   * After Put on an array with unique keys, the entry under `key` holds
   * `sub`, and every other keyed entry was already there.
   */
  lemma PutMembers(arr: seq<Pretty>, key: string, sub: seq<Pretty>, p: Pretty)
    requires UniqueKeys(arr) && p in Put(arr, key, sub) && p.Branch?
    ensures if p.key == key then p.sub == sub else p in arr
  {
    var j := KeyIndex(arr, key, 0);
    var r := Put(arr, key, sub);
    var i :| 0 <= i < |r| && r[i] == p;
    if j == |arr| {
      if i < |arr| {
        assert p == arr[i];
      }
    } else if i != j {
      assert p == arr[i];
    }
  }

  /** What one item of the loop does to `$contents`. */
  datatype Event = AddLine(text: string) | SetKey(key: string, sub: seq<Pretty>) | Skip

  /** `$contents` after one event. */
  function Apply(acc: seq<Pretty>, e: Event): seq<Pretty>
  {
    match e
    case AddLine(text) => acc + [Line(text)]
    case SetKey(key, sub) => Put(acc, key, sub)
    case Skip => acc
  }

  /** `$contents` after a run of events, starting from the empty array. */
  function Fold(evs: seq<Event>): seq<Pretty>
  {
    if |evs| == 0 then [] else Apply(Fold(evs[..|evs| - 1]), evs[|evs| - 1])
  }

  /** The texts of the list lines the events add, in order. */
  function Texts(evs: seq<Event>): seq<string>
  {
    if |evs| == 0 then []
    else Texts(evs[..|evs| - 1]) + (if evs[|evs| - 1].AddLine? then [evs[|evs| - 1].text] else [])
  }

  /** The keys the events set. */
  function KeySet(evs: seq<Event>): set<string>
  {
    if |evs| == 0 then {}
    else KeySet(evs[..|evs| - 1]) + (if evs[|evs| - 1].SetKey? then {evs[|evs| - 1].key} else {})
  }

  /** The value of the last event that sets `key`, if any does. */
  function LastSet(evs: seq<Event>, key: string): Option<seq<Pretty>>
  {
    if |evs| == 0 then None
    else if evs[|evs| - 1].SetKey? && evs[|evs| - 1].key == key then Some(evs[|evs| - 1].sub)
    else LastSet(evs[..|evs| - 1], key)
  }

  /** Every keyed entry of `r` holds the value last set under its key. */
  predicate HoldsLastSet(r: seq<Pretty>, evs: seq<Event>)
  {
    forall p :: p in r && p.Branch? ==> LastSet(evs, p.key) == Some(p.sub)
  }

  lemma LinesStep(acc: seq<Pretty>, e: Event)
    ensures Lines(Apply(acc, e)) == Lines(acc) + (if e.AddLine? then [e.text] else [])
  {
    match e
    case AddLine(text) => AppendLine(acc, text);
    case SetKey(key, sub) => PutLines(acc, key, sub);
    case Skip => assert Lines(acc) + [] == Lines(acc);
  }

  lemma KeysStep(acc: seq<Pretty>, e: Event)
    ensures Keys(Apply(acc, e)) == Keys(acc) + (if e.SetKey? then {e.key} else {})
    ensures UniqueKeys(acc) ==> UniqueKeys(Apply(acc, e))
  {
    match e
    case AddLine(text) => AppendLine(acc, text);
    case SetKey(key, sub) =>
      PutKeys(acc, key, sub);
      if UniqueKeys(acc) {
        PutUnique(acc, key, sub);
      }
    case Skip =>
  }

  /** The lines of the array are the texts the events add, in order. */
  lemma {:induction false} FoldLines(evs: seq<Event>)
    ensures Lines(Fold(evs)) == Texts(evs)
  {
    if |evs| > 0 {
      FoldLines(evs[..|evs| - 1]);
      LinesStep(Fold(evs[..|evs| - 1]), evs[|evs| - 1]);
    }
  }

  /** The keys of the array are the keys the events set, each once. */
  lemma {:induction false} FoldKeys(evs: seq<Event>)
    ensures Keys(Fold(evs)) == KeySet(evs)
    ensures UniqueKeys(Fold(evs))
  {
    if |evs| > 0 {
      FoldKeys(evs[..|evs| - 1]);
      KeysStep(Fold(evs[..|evs| - 1]), evs[|evs| - 1]);
    }
  }

  /** Each key holds the value set under it last. */
  lemma {:induction false} FoldValues(evs: seq<Event>)
    ensures HoldsLastSet(Fold(evs), evs)
  {
    if |evs| > 0 {
      var init := evs[..|evs| - 1];
      var e := evs[|evs| - 1];
      var acc := Fold(init);
      FoldValues(init);
      FoldKeys(init);
      forall p | p in Apply(acc, e) && p.Branch?
        ensures LastSet(evs, p.key) == Some(p.sub)
      {
        match e
        case AddLine(text) => assert p in acc;
        case SetKey(key, sub) => PutMembers(acc, key, sub, p);
        case Skip =>
      }
    }
  }

  /** What prettify_tree returns for `d`. */
  function Prettify(d: Data): seq<Pretty>
    decreases d, 1, 0
  {
    if d.Folder? && Truthy(d.folder) then
      (if |d.contents| == 0 then [] else PrettyContents(d, |d.contents|))
    else []
  }

  /** The `$contents` array after the first `n` items of the folder `d`. */
  function PrettyContents(d: Data, n: nat): seq<Pretty>
    requires d.Folder? && n <= |d.contents|
    decreases d, 0, n
  {
    if n == 0 then [] else Apply(PrettyContents(d, n - 1), EventOf(d.contents[n - 1]))
  }

  /**
   * The event of one item: a file item with a truthy path adds its line, a
   * sub-folder with a truthy path sets its key to its prettified subtree,
   * anything else does nothing.
   */
  function EventOf(item: Data): Event
    decreases item, 2, 0
  {
    if item.File? && Truthy(item.file) then AddLine(FileLine(item))
    else if item.Folder? && Truthy(item.folder) then SetKey(FolderKey(item), Prettify(item))
    else Skip
  }

  /** The events of the first `n` items of `d`, in order. */
  function Events(d: Data, n: nat): seq<Event>
    requires d.Folder? && n <= |d.contents|
  {
    if n == 0 then [] else Events(d, n - 1) + [EventOf(d.contents[n - 1])]
  }

  /** The array after `n` items is the fold of their events. */
  lemma {:induction false} ContentsFold(d: Data, n: nat)
    requires d.Folder? && n <= |d.contents|
    ensures PrettyContents(d, n) == Fold(Events(d, n))
  {
    if n > 0 {
      ContentsFold(d, n - 1);
      FoldSnoc(Events(d, n - 1), EventOf(d.contents[n - 1]));
    }
  }

  lemma FoldSnoc(evs: seq<Event>, e: Event)
    ensures Fold(evs + [e]) == Apply(Fold(evs), e)
  {
    assert (evs + [e])[..|evs|] == evs;
  }

  /**
   * The PHP prettify_tree: one loop over the folder's items, a recursive
   * call for each sub-folder (through VisitItem).
   */
  method PrettifyTree(data: Data) returns (contents: seq<Pretty>)
    ensures contents == Prettify(data)
    decreases data, 0
  {
    if data.Folder? && Truthy(data.folder) {
      if |data.contents| == 0 {
        return [];
      }
      contents := [];
      var i := 0;
      while i < |data.contents|
        invariant 0 <= i <= |data.contents|
        invariant contents == PrettyContents(data, i)
      {
        contents := VisitItem(contents, data.contents[i]);
        i := i + 1;
      }
      if |contents| == 0 {
        return [];
      }
      return contents;
    }
    return [];
  }

  /**
   * The body of prettify_tree's loop for one item: a file item with a
   * truthy path appends its marked-up line, a sub-folder with a truthy path
   * stores its prettified subtree under its key, anything else is skipped.
   */
  method VisitItem(contents: seq<Pretty>, item: Data) returns (next: seq<Pretty>)
    ensures next == Apply(contents, EventOf(item))
    decreases item, 1
  {
    if item.File? && Truthy(item.file) {
      var status := Unseen;
      if |item.hashes| > 0 {
        status := ComputeHashStatus(item.hashes);
      }
      var str := AfterLast(item.file, '/') + " " + Glyph(status);
      str := Markup(status, str);
      return contents + [Line(str)];
    }
    if item.Folder? && Truthy(item.folder) {
      var sub := PrettifyTree(item);
      return Put(contents, AfterLast(item.folder, '/') + "/", sub);
    }
    return contents;
  }

  /** Appending a list line adds it to the lines and leaves the keys alone. */
  lemma AppendLine(r: seq<Pretty>, text: string)
    ensures Lines(r + [Line(text)]) == Lines(r) + [text]
    ensures Keys(r + [Line(text)]) == Keys(r)
    ensures UniqueKeys(r) ==> UniqueKeys(r + [Line(text)])
  {
    assert (r + [Line(text)])[..|r|] == r;
    KeysSnoc(r, Line(text));
  }

  /** A prettified array is its lines and its distinct keys, nothing more. */
  lemma {:induction false} SizeSplit(r: seq<Pretty>)
    requires UniqueKeys(r)
    ensures |r| == |Lines(r)| + |Keys(r)|
  {
    if |r| > 0 {
      var init := r[..|r| - 1];
      var x := r[|r| - 1];
      assert r == init + [x];
      assert UniqueKeys(init);
      SizeSplit(init);
      KeysSnoc(init, x);
    }
  }

  /**
   * prettify_tree of a folder with a truthy path, in terms of the events of
   * its items: the lines the file items add, in order; one key per distinct
   * sub-folder name, holding the subtree of the last sub-folder of that
   * name; nothing else. Of anything else, the empty array.
   */
  lemma PrettifyShape(d: Data)
    ensures !(d.Folder? && Truthy(d.folder)) ==> Prettify(d) == []
    ensures d.Folder? && Truthy(d.folder) ==>
      var r := Prettify(d);
      var evs := Events(d, |d.contents|);
      && Lines(r) == Texts(evs)
      && Keys(r) == KeySet(evs)
      && UniqueKeys(r)
      && HoldsLastSet(r, evs)
      && |r| == |Texts(evs)| + |KeySet(evs)|
  {
    if d.Folder? && Truthy(d.folder) {
      var n := |d.contents|;
      var evs := Events(d, n);
      ContentsFold(d, n);
      FoldLines(evs);
      FoldKeys(evs);
      FoldValues(evs);
      SizeSplit(Prettify(d));
    }
  }
}
