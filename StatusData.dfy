/**
 * The values that the status command passes around. In the PHP code these are
 * untyped arrays told apart by which keys they carry; here each shape is a
 * constructor of its own.
 */
module StatusData {

  datatype Option<T> = None | Some(value: T)

  /**
   * One verdict record as the status command reads it. Only `status` is ever
   * inspected; `'true'` and `'false'` are the two meaningful literals, and the
   * scanner itself produces `'unknown'` for files it could not look up. The
   * `file` key is present only on records the scanner synthesises. Other
   * columns of a stored record (user, notes, dates) are not read here.
   */
  datatype HashRecord = HashRecord(hash: string, status: string, file: Option<string>)

  /**
   * The arrays built by the scan and consumed by count_tree / prettify_tree:
   *  - Folder:  `['folder' => path, 'contents' => [...]]`
   *  - File:    `['file' => path, 'hashes' => [...]]` (an item of a folder)
   *  - Records: the bare list of records that processFile returns
   */
  datatype Data =
    | Folder(folder: string, contents: seq<Data>)
    | File(file: string, hashes: seq<HashRecord>)
    | Records(records: seq<HashRecord>)

  /** PHP's `! empty($s)` for a string: false for "" and for "0". */
  predicate Truthy(s: string)
  {
    s != "" && s != "0"
  }

  /**
   * The part of `s` after the last occurrence of `c`, or all of `s` when `c`
   * does not occur (PHP's `end(explode(c, s))`).
   */
  function AfterLast(s: string, c: char): string
  {
    if |s| == 0 then ""
    else if s[|s| - 1] == c then ""
    else AfterLast(s[..|s| - 1], c) + [s[|s| - 1]]
  }

  /** AfterLast is a suffix of `s` in which `c` does not occur. */
  lemma {:induction false} AfterLastSuffix(s: string, c: char)
    ensures var r := AfterLast(s, c);
      && c !in r && |r| <= |s|
      && forall i :: 0 <= i < |r| ==> r[i] == s[|s| - |r| + i]
  {
    if |s| > 0 && s[|s| - 1] != c {
      var init := s[..|s| - 1];
      AfterLastSuffix(init, c);
      var r := AfterLast(s, c);
      assert r == AfterLast(init, c) + [s[|s| - 1]];
    }
  }

  /**
   * AfterLast is the whole of `s` when `c` does not occur in it, and
   * otherwise starts right after an occurrence of `c`.
   */
  lemma {:induction false} AfterLastCut(s: string, c: char)
    ensures var r := AfterLast(s, c);
      && (c !in s ==> r == s)
      && (c in s ==> |r| < |s| && s[|s| - |r| - 1] == c)
  {
    if |s| > 0 && s[|s| - 1] != c {
      var init := s[..|s| - 1];
      AfterLastCut(init, c);
      var r0 := AfterLast(init, c);
      assert AfterLast(s, c) == r0 + [s[|s| - 1]];
      assert s == init + [s[|s| - 1]];
      if c in s {
        assert c in init;
        assert s[|s| - |r0| - 2] == init[|init| - |r0| - 1];
      } else {
        assert c !in init;
      }
    }
  }
}
