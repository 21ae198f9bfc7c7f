/**
 * hash_status: fold the verdict records of one file into one of four symbols.
 * The first record seeds the result; afterwards only a Good or Bad result can
 * change, and only to Mixed.
 */
module HashStatus {
  import opened StatusData

  /** The four result symbols `?`, `✓`, `x` and `~`. */
  datatype Symbol = Unseen | Good | Bad | Mixed

  /** The glyph the PHP code uses for each symbol. */
  function Glyph(s: Symbol): string
  {
    match s
    case Unseen => "?"
    case Good => "✓"
    case Bad => "x"
    case Mixed => "~"
  }

  lemma GlyphInjective(a: Symbol, b: Symbol)
    ensures Glyph(a) == Glyph(b) <==> a == b
  {
  }

  /** The symbol the first record sets (`$status_set` becomes true either way). */
  function Seed(r: HashRecord): Symbol
  {
    if r.status == "true" then Good
    else if r.status == "false" then Bad
    else Unseen
  }

  /** The effect of one later record on the symbol reached so far. */
  function Step(st: Symbol, r: HashRecord): (next: Symbol)
    ensures next != st ==> (st == Good || st == Bad) && next == Mixed
    ensures st == Good && r.status == "false" ==> next == Mixed
    ensures st == Bad && r.status == "true" ==> next == Mixed
  {
    match st
    case Good => if r.status == "false" then Mixed else Good
    case Bad => if r.status == "true" then Mixed else Bad
    case _ => st
  }

  /** The symbol after the first `n` records: the first seeds it, the others step it. */
  function RunTo(h: seq<HashRecord>, n: nat): Symbol
    requires 1 <= n <= |h|
  {
    if n == 1 then Seed(h[0]) else Step(RunTo(h, n - 1), h[n - 1])
  }

  /** What hash_status returns for `hashes`. */
  function Verdict(hashes: seq<HashRecord>): Symbol
  {
    if |hashes| == 0 then Unseen else RunTo(hashes, |hashes|)
  }

  /** Some record at an index in `[lo, hi)` has the status `status`. */
  predicate AnyStatus(h: seq<HashRecord>, lo: nat, hi: nat, status: string)
    requires hi <= |h|
  {
    exists i :: lo <= i < hi && h[i].status == status
  }

  /**
   * The PHP loop, over `$status` and `$status_set`.
   */
  method ComputeHashStatus(hashes: seq<HashRecord>) returns (status: Symbol)
    ensures status == Verdict(hashes)
  {
    status := Unseen;
    var statusSet := false;
    if |hashes| == 0 {
      return;
    }
    var i := 0;
    while i < |hashes|
      invariant 0 <= i <= |hashes|
      invariant statusSet <==> i > 0
      invariant i == 0 ==> status == Unseen
      invariant i > 0 ==> status == RunTo(hashes, i)
    {
      var hash := hashes[i];
      if !statusSet {
        if hash.status == "true" {
          status := Good;
        } else if hash.status == "false" {
          status := Bad;
        }
        statusSet := true;
        i := i + 1;
        continue;
      }
      if status == Good {
        if hash.status == "false" {
          status := Mixed;
        }
      }
      if status == Bad {
        if hash.status == "true" {
          status := Mixed;
        }
      }
      i := i + 1;
    }
  }

  /** Mixed is terminal: no record moves the symbol away from it. */
  lemma {:induction false} RunMixed(h: seq<HashRecord>, m: nat, n: nat)
    requires 1 <= m <= n <= |h| && RunTo(h, m) == Mixed
    ensures RunTo(h, n) == Mixed
    decreases n
  {
    if n > m {
      RunMixed(h, m, n - 1);
    }
  }

  /** Unseen is terminal too: a first record that is neither verdict fixes `?`. */
  lemma {:induction false} RunUnseen(h: seq<HashRecord>, n: nat)
    requires 1 <= n <= |h| && Seed(h[0]) == Unseen
    ensures RunTo(h, n) == Unseen
  {
    if n > 1 {
      RunUnseen(h, n - 1);
    }
  }

  /** From Good, the result is Mixed exactly when some later record is `'false'`. */
  lemma {:induction false} RunGood(h: seq<HashRecord>, n: nat)
    requires 1 <= n <= |h| && Seed(h[0]) == Good
    ensures RunTo(h, n) == if AnyStatus(h, 1, n, "false") then Mixed else Good
  {
    if n > 1 {
      RunGood(h, n - 1);
      if AnyStatus(h, 1, n - 1, "false") {
        var i :| 1 <= i < n - 1 && h[i].status == "false";
        assert AnyStatus(h, 1, n, "false");
      } else if h[n - 1].status == "false" {
        assert AnyStatus(h, 1, n, "false");
      } else {
        assert !AnyStatus(h, 1, n, "false");
      }
    }
  }

  /** From Bad, the result is Mixed exactly when some later record is `'true'`. */
  lemma {:induction false} RunBad(h: seq<HashRecord>, n: nat)
    requires 1 <= n <= |h| && Seed(h[0]) == Bad
    ensures RunTo(h, n) == if AnyStatus(h, 1, n, "true") then Mixed else Bad
  {
    if n > 1 {
      RunBad(h, n - 1);
      if AnyStatus(h, 1, n - 1, "true") {
        var i :| 1 <= i < n - 1 && h[i].status == "true";
        assert AnyStatus(h, 1, n, "true");
      } else if h[n - 1].status == "true" {
        assert AnyStatus(h, 1, n, "true");
      } else {
        assert !AnyStatus(h, 1, n, "true");
      }
    }
  }

  /**
   * The four outcomes of hash_status described without the state machine:
   * `?` for no records or a first record that is neither verdict,
   * `✓`/`x` for a first verdict that no later record contradicts, `~` otherwise.
   */
  lemma VerdictCharacterization(h: seq<HashRecord>)
    ensures Verdict(h) == Unseen <==>
      |h| == 0 || (h[0].status != "true" && h[0].status != "false")
    ensures Verdict(h) == Good <==>
      |h| > 0 && h[0].status == "true" && !AnyStatus(h, 1, |h|, "false")
    ensures Verdict(h) == Bad <==>
      |h| > 0 && h[0].status == "false" && !AnyStatus(h, 1, |h|, "true")
    ensures Verdict(h) == Mixed <==>
      |h| > 0 && ((h[0].status == "true" && AnyStatus(h, 1, |h|, "false")) ||
                  (h[0].status == "false" && AnyStatus(h, 1, |h|, "true")))
  {
    if |h| > 0 {
      if Seed(h[0]) == Good {
        RunGood(h, |h|);
      } else if Seed(h[0]) == Bad {
        RunBad(h, |h|);
      } else {
        RunUnseen(h, |h|);
      }
    }
  }

  /** Appending records to a list whose verdict is Mixed keeps it Mixed. */
  lemma MixedIsSticky(h: seq<HashRecord>, more: seq<HashRecord>)
    requires Verdict(h) == Mixed
    ensures Verdict(h + more) == Mixed
  {
    VerdictCharacterization(h);
    VerdictCharacterization(h + more);
    var g := h + more;
    assert g[0] == h[0];
    if h[0].status == "true" {
      var i :| 1 <= i < |h| && h[i].status == "false";
      assert g[i] == h[i];
      assert AnyStatus(g, 1, |g|, "false");
    } else {
      var i :| 1 <= i < |h| && h[i].status == "true";
      assert g[i] == h[i];
      assert AnyStatus(g, 1, |g|, "true");
    }
  }

  /** A list whose first record is neither verdict reads as `?` whatever follows. */
  lemma UnseenFirstIsFinal(h: seq<HashRecord>, more: seq<HashRecord>)
    requires |h| > 0 && h[0].status != "true" && h[0].status != "false"
    ensures Verdict(h + more) == Unseen
  {
    var g := h + more;
    assert g[0] == h[0];
    RunUnseen(g, |g|);
  }
}
