/**
 * The link propagation of `/mv`: every scanned note that mentions the old note by a wikilink to
 * its slug or to its name gets both links replaced, and nothing else is touched.
 */
module Rename {
  import opened Text
  import opened Store

  /** `f"[[{name}]]"` */
  function Link(name: string): (l: string)
    ensures |l| == |name| + 4
  {
    "[[" + name + "]]"
  }

  /** The old and new slug and name of a renamed note */
  datatype Names = Names(oldSlug: string, newSlug: string, oldName: string, newName: string)

  /** The content links to the old note by slug or by name */
  predicate Mentions(content: string, n: Names) {
    Contains(content, Link(n.oldSlug)) || Contains(content, Link(n.oldName))
  }

  /** Slug links replaced first, then name links */
  function Relinked(content: string, n: Names): string {
    ReplaceAll(ReplaceAll(content, Link(n.oldSlug), Link(n.newSlug)), Link(n.oldName), Link(n.newName))
  }

  /** The files the loop rewrites, in the order it visits them */
  function Rewrites(files: Files, order: seq<Path>, skip: Path -> bool, n: Names): (ps: seq<Path>)
    requires forall p :: p in order ==> p in files
    decreases |order|
  {
    if order == [] then []
    else
      var p := order[|order| - 1];
      Rewrites(files, order[..|order| - 1], skip, n) + (if !skip(p) && Mentions(files[p], n) then [p] else [])
  }

  /** The files after the loop has visited `order`, each visited file read before any write to it */
  function Relink(files: Files, order: seq<Path>, skip: Path -> bool, n: Names): (r: Files)
    requires forall p :: p in order ==> p in files
    ensures r.Keys == files.Keys
    decreases |order|
  {
    if order == [] then files
    else
      var p := order[|order| - 1];
      var g := Relink(files, order[..|order| - 1], skip, n);
      if !skip(p) && Mentions(files[p], n) then g[p := Relinked(files[p], n)] else g
  }

  /** The writes of the loop, one per rewritten file */
  function Writes(ps: seq<Path>): (es: seq<Effect>)
    ensures |es| == |ps| && forall i :: 0 <= i < |ps| ==> es[i] == Wrote(ps[i])
  {
    seq(|ps|, i requires 0 <= i < |ps| => Wrote(ps[i]))
  }

  /** A file is rewritten exactly when the loop visits it, does not skip it, and it mentions the old note */
  lemma {:induction false} RewritesExactly(files: Files, order: seq<Path>, skip: Path -> bool, n: Names, q: Path)
    requires forall p :: p in order ==> p in files
    ensures q in Rewrites(files, order, skip, n) <==> q in order && !skip(q) && Mentions(files[q], n)
    decreases |order|
  {
    if order != [] {
      var init := order[..|order| - 1];
      RewritesExactly(files, init, skip, n, q);
      InitLast(order);
    }
  }

  /** Visiting each file once, the loop rewrites each file at most once */
  lemma {:induction false} RewritesOnce(files: Files, order: seq<Path>, skip: Path -> bool, n: Names)
    requires forall p :: p in order ==> p in files
    requires forall i, j :: 0 <= i < j < |order| ==> order[i] != order[j]
    ensures var ps := Rewrites(files, order, skip, n);
      forall i, j :: 0 <= i < j < |ps| ==> ps[i] != ps[j]
    decreases |order|
  {
    if order != [] {
      var init := order[..|order| - 1];
      var p := order[|order| - 1];
      RewritesOnce(files, init, skip, n);
      RewritesExactly(files, init, skip, n, p);
      assert p !in init by {
        InitLast(order);
      }
    }
  }

  /**
   * The loop gives each rewritten file the relinked form of its text and leaves every other
   * file byte-identical
   */
  lemma {:induction false} RelinkEffect(files: Files, order: seq<Path>, skip: Path -> bool, n: Names, q: Path)
    requires forall p :: p in order ==> p in files
    requires q in files
    ensures Relink(files, order, skip, n)[q]
      == if q in Rewrites(files, order, skip, n) then Relinked(files[q], n) else files[q]
    decreases |order|
  {
    if order != [] {
      RelinkEffect(files, order[..|order| - 1], skip, n, q);
    }
  }

  /** One more visited file */
  lemma RelinkStep(files: Files, order: seq<Path>, skip: Path -> bool, n: Names, k: nat)
    requires forall p :: p in order ==> p in files
    requires k < |order|
    ensures var p := order[k];
      !skip(p) && Mentions(files[p], n) ==>
        && Rewrites(files, order[..k + 1], skip, n) == Rewrites(files, order[..k], skip, n) + [p]
        && Relink(files, order[..k + 1], skip, n) == Relink(files, order[..k], skip, n)[p := Relinked(files[p], n)]
    ensures var p := order[k];
      !(!skip(p) && Mentions(files[p], n)) ==>
        && Rewrites(files, order[..k + 1], skip, n) == Rewrites(files, order[..k], skip, n)
        && Relink(files, order[..k + 1], skip, n) == Relink(files, order[..k], skip, n)
  {
    assert order[..k + 1][..k] == order[..k];
  }

  /** A file the loop has not visited yet still holds its text */
  lemma Unvisited(files: Files, order: seq<Path>, skip: Path -> bool, n: Names, k: nat)
    requires forall p :: p in order ==> p in files
    requires forall i, j :: 0 <= i < j < |order| ==> order[i] != order[j]
    requires k < |order|
    ensures Relink(files, order[..k], skip, n)[order[k]] == files[order[k]]
  {
    var p := order[k];
    RelinkEffect(files, order[..k], skip, n, p);
    RewritesExactly(files, order[..k], skip, n, p);
  }

  /** The writes of one more rewritten file */
  lemma WritesSnoc(ps: seq<Path>, p: Path)
    ensures Writes(ps + [p]) == Writes(ps) + [Wrote(p)]
  {
  }
}
