/**
 * Full-text search, shared by the `search` command and the shell's `/search`: every line of
 * every scanned note that contains the query, ignoring case, with a window of lines around it.
 */
module Search {
  import opened Text
  import opened Store

  /** One result: the note, the 1-based line number, and the context lines joined by newlines */
  datatype Hit = Hit(path: Path, line: nat, context: string)

  /** Python's reading of a slice bound: a negative bound counts from the end, then the bound is clamped */
  function SliceBound(x: int, n: nat): (b: nat)
    ensures b <= n
    ensures 0 <= x <= n ==> b == x
  {
    if x < 0 then (if x + n < 0 then 0 else x + n) else if x > n then n else x
  }

  /** `s[start:end]` */
  function PySlice<T>(s: seq<T>, start: int, end: int): (r: seq<T>)
    ensures |r| <= |s|
    ensures SliceBound(start, |s|) < SliceBound(end, |s|) ==> r == s[SliceBound(start, |s|)..SliceBound(end, |s|)]
    ensures SliceBound(start, |s|) >= SliceBound(end, |s|) ==> r == []
  {
    var a := SliceBound(start, |s|);
    var b := SliceBound(end, |s|);
    if a < b then s[a..b] else []
  }

  function Max(a: int, b: int): int { if a < b then b else a }
  function Min(a: int, b: int): int { if a < b then a else b }

  /** `lines[max(0, i - c):min(len(lines), i + c + 1)]` */
  function Window(lines: seq<string>, i: nat, c: int): seq<string>
    requires i < |lines|
  {
    PySlice(lines, Max(0, i - c), Min(|lines|, i + c + 1))
  }

  /** The case-insensitive substring test `query.lower() in line.lower()` */
  predicate Matches(line: string, query: string) {
    Contains(Lower(line), Lower(query))
  }

  /** The result for line `i` */
  function HitAt(path: Path, lines: seq<string>, i: nat, c: int): Hit
    requires i < |lines|
  {
    Hit(path, i + 1, Join(Window(lines, i, c), "\n"))
  }

  /** The results among the first `k` lines, in line order */
  function LineHits(path: Path, lines: seq<string>, query: string, c: int, k: nat): seq<Hit>
    requires k <= |lines|
    decreases k
  {
    if k == 0 then []
    else
      var here := if Matches(lines[k - 1], query) then [HitAt(path, lines, k - 1, c)] else [];
      LineHits(path, lines, query, c, k - 1) + here
  }

  /** The results in one note: its text split at newlines */
  function FileHits(path: Path, content: string, query: string, c: int): seq<Hit> {
    var lines := SplitOn(content, '\n');
    LineHits(path, lines, query, c, |lines|)
  }

  /** The results of a scan over the notes in `order` that `skip` does not rule out */
  function VaultHits(files: Files, order: seq<Path>, skip: Path -> bool, query: string, c: int): seq<Hit>
    requires forall p :: p in order ==> p in files
    decreases |order|
  {
    if order == [] then []
    else
      var p := order[|order| - 1];
      VaultHits(files, order[..|order| - 1], skip, query, c)
        + (if skip(p) then [] else FileHits(p, files[p], query, c))
  }

  /** The loop over the lines of one note */
  method SearchFile(path: Path, content: string, query: string, c: int) returns (hits: seq<Hit>)
    ensures hits == FileHits(path, content, query, c)
  {
    var lines := SplitOn(content, '\n');
    hits := [];
    for i := 0 to |lines|
      invariant hits == LineHits(path, lines, query, c, i)
    {
      if Contains(Lower(lines[i]), Lower(query)) {
        var start := Max(0, i - c);
        var end := Min(|lines|, i + c + 1);
        hits := hits + [Hit(path, i + 1, Join(PySlice(lines, start, end), "\n"))];
      }
    }
  }

  /** The loop over the notes */
  method SearchVault(files: Files, order: seq<Path>, skip: Path -> bool, query: string, c: int)
    returns (hits: seq<Hit>)
    requires forall p :: p in order ==> p in files
    ensures hits == VaultHits(files, order, skip, query, c)
  {
    hits := [];
    for k := 0 to |order|
      invariant hits == VaultHits(files, order[..k], skip, query, c)
    {
      var p := order[k];
      assert order[..k + 1][..k] == order[..k];
      if !skip(p) {
        var more := SearchFile(p, files[p], query, c);
        hits := hits + more;
      }
    }
    assert order[..|order|] == order;
  }

  /** A result is reported exactly for each line that contains the query */
  lemma {:induction false} LineHitsExactly(path: Path, lines: seq<string>, query: string, c: int, k: nat, h: Hit)
    requires k <= |lines|
    ensures h in LineHits(path, lines, query, c, k)
      <==> exists i :: 0 <= i < k && Matches(lines[i], query) && h == HitAt(path, lines, i, c)
    decreases k
  {
    if k > 0 {
      LineHitsExactly(path, lines, query, c, k - 1, h);
    }
  }

  /** Results come in increasing line order, one per line, and each names a line among the first `k` */
  lemma {:induction false} LineHitsOrdered(path: Path, lines: seq<string>, query: string, c: int, k: nat)
    requires k <= |lines|
    ensures forall h :: h in LineHits(path, lines, query, c, k) ==> 1 <= h.line <= k
    ensures forall a, b :: 0 <= a < b < |LineHits(path, lines, query, c, k)| ==>
      LineHits(path, lines, query, c, k)[a].line < LineHits(path, lines, query, c, k)[b].line
    decreases k
  {
    if k > 0 {
      LineHitsOrdered(path, lines, query, c, k - 1);
    }
  }

  /** With a context of `c >= 0` lines, the window holds the matched line and at most 2c + 1 lines */
  lemma WindowHoldsLine(lines: seq<string>, i: nat, c: int)
    requires i < |lines| && c >= 0
    ensures var w := Window(lines, i, c);
      && |w| <= 2 * c + 1
      && i - Max(0, i - c) < |w|
      && w[i - Max(0, i - c)] == lines[i]
      && w == lines[Max(0, i - c)..Min(|lines|, i + c + 1)]
  {
  }

  /** A negative context counts the window's end from the last line: the matched line can fall outside */
  lemma NegativeContextMisses()
    ensures Window(["a", "b", "c", "d", "e"], 0, -2) == ["c", "d"]
  {
    var lines := ["a", "b", "c", "d", "e"];
    assert SliceBound(2, 5) == 2 && SliceBound(-1, 5) == 4;
    assert lines[2..4] == ["c", "d"];
  }

  /** The scan reports exactly the results of the notes it does not skip */
  lemma {:induction false} VaultHitsExactly(files: Files, order: seq<Path>, skip: Path -> bool, query: string, c: int, h: Hit)
    requires forall p :: p in order ==> p in files
    ensures h in VaultHits(files, order, skip, query, c)
      <==> exists p :: p in order && !skip(p) && h in FileHits(p, files[p], query, c)
    decreases |order|
  {
    if order != [] {
      var init := order[..|order| - 1];
      var p := order[|order| - 1];
      VaultHitsExactly(files, init, skip, query, c, h);
      InitLast(order);
    }
  }
}
