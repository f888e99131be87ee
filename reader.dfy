/**
 * The header reader of the `list` command (and of `tags`): the three regular expressions it
 * applies, each turned into the character positions its match visits, including the
 * back-tracking of `\s*` in front of `.+`.
 */
module Reader {
  import opened Text
  import opened Wrappers

  /** The first position at or after `j` that is not whitespace: where a greedy `\s*` stops */
  function SkipSpaces(s: string, j: nat): (e: nat)
    requires j <= |s|
    ensures j <= e <= |s|
    ensures forall k :: j <= k < e ==> IsSpace(s[k])
    ensures e < |s| ==> !IsSpace(s[e])
    decreases |s| - j
  {
    if j < |s| && IsSpace(s[j]) then SkipSpaces(s, j + 1) else j
  }

  /** The first newline at or after `j`, or the end: where a greedy `.+` stops */
  function LineEnd(s: string, j: nat): (n: nat)
    requires j <= |s|
    ensures j <= n <= |s|
    ensures forall k :: j <= k < n ==> s[k] != '\n'
    ensures n < |s| ==> s[n] == '\n'
    decreases |s| - j
  {
    if j < |s| && s[j] != '\n' then LineEnd(s, j + 1) else j
  }

  /** The last position in [lo, hi) that holds something other than a newline */
  function LastNonNewline(s: string, lo: nat, hi: nat): (r: Option<nat>)
    requires lo <= hi <= |s|
    ensures r.Some? ==> lo <= r.value < hi && s[r.value] != '\n'
    ensures r.Some? ==> forall k :: r.value < k < hi ==> s[k] == '\n'
    ensures r.None? ==> forall k :: lo <= k < hi ==> s[k] == '\n'
    decreases hi
  {
    if hi <= lo then None
    else if s[hi - 1] != '\n' then Some(hi - 1)
    else LastNonNewline(s, lo, hi - 1)
  }

  /** The last newline in [lo, hi) */
  function LastNewline(s: string, lo: nat, hi: nat): (r: Option<nat>)
    requires lo <= hi <= |s|
    ensures r.Some? ==> lo <= r.value < hi && s[r.value] == '\n'
    ensures r.Some? ==> forall k :: r.value < k < hi ==> s[k] != '\n'
    ensures r.None? ==> forall k :: lo <= k < hi ==> s[k] != '\n'
    decreases hi
  {
    if hi <= lo then None
    else if s[hi - 1] == '\n' then Some(hi - 1)
    else LastNewline(s, lo, hi - 1)
  }

  /**
   * `\s*(.+)` at `j`: where `.+` starts. The greedy `\s*` stops at the first non-space; if the
   * text is all whitespace from there on, it gives back characters until `.+` finds one that is
   * not a newline.
   */
  function SpacedRest(s: string, j: nat): (m: Option<nat>)
    requires j <= |s|
    ensures m.Some? ==> j <= m.value < |s| && s[m.value] != '\n'
    ensures m.Some? ==> forall k :: j <= k < m.value ==> IsSpace(s[k])
    ensures m.None? ==> forall k :: j <= k < |s| ==> s[k] == '\n'
  {
    var e := SkipSpaces(s, j);
    if e < |s| then Some(e) else LastNonNewline(s, j, e)
  }

  /** `key\s*(.+)` matched at `i`: the captured group, which runs to the end of its line */
  function FieldAt(s: string, key: string, i: nat): (r: Option<string>)
    requires At(s, key, i)
    ensures r.Some? ==> r.value != [] && forall k :: 0 <= k < |r.value| ==> r.value[k] != '\n'
  {
    match SpacedRest(s, i + |key|)
    case None => None
    case Some(m) => Some(s[m..LineEnd(s, m)])
  }

  /** `re.search(key + r'\s*(.+)', s[i:])`: the leftmost match from `i` */
  function FieldFrom(s: string, key: string, i: nat): (r: Option<string>)
    requires key != [] && i <= |s|
    decreases |s| - i
  {
    if i + |key| > |s| then None
    else if At(s, key, i) && FieldAt(s, key, i).Some? then FieldAt(s, key, i)
    else FieldFrom(s, key, i + 1)
  }

  /** `\s*-\s*.+\n?` at `q`: where the item ends */
  function ItemAt(s: string, q: nat): (r: Option<nat>)
    requires q <= |s|
    ensures r.Some? ==> q < r.value <= |s|
  {
    var e := SkipSpaces(s, q);
    if e == |s| || s[e] != '-' then None
    else
      match SpacedRest(s, e + 1)
      case None => None
      case Some(m) =>
        var n := LineEnd(s, m);
        Some(if n < |s| then n + 1 else n)
  }

  /** `(?:\s*-\s*.+\n?)*` taken greedily from `q`: where the last item ends */
  function ItemsFrom(s: string, q: nat): (r: nat)
    requires q <= |s|
    ensures q <= r <= |s|
    decreases |s| - q
  {
    match ItemAt(s, q)
    case None => q
    case Some(next) => ItemsFrom(s, next)
  }

  /**
   * `tags:\s*\n((?:\s*-\s*.+\n?)+)` matched at `i`: the captured items. `\s*\n` ends at the last
   * newline of the whitespace after `tags:`; the first item must then begin with '-'.
   */
  function TagsAt(s: string, i: nat): (r: Option<string>)
    requires At(s, "tags:", i)
  {
    var e := SkipSpaces(s, i + 5);
    match LastNewline(s, i + 5, e)
    case None => None
    case Some(p) => if ItemAt(s, p + 1).None? then None else Some(s[p + 1..ItemsFrom(s, p + 1)])
  }

  /** `re.search(r'tags:\s*\n((?:\s*-\s*.+\n?)+)', s[i:])`: the leftmost match from `i` */
  function TagsFrom(s: string, i: nat): (r: Option<string>)
    requires i <= |s|
    decreases |s| - i
  {
    if i + 5 > |s| then None
    else if At(s, "tags:", i) && TagsAt(s, i).Some? then TagsAt(s, i)
    else TagsFrom(s, i + 1)
  }

  const TagTrim: set<char> := {'-', ' '}

  /** `[t.strip('- ').strip() for t in lines if t.strip()]` */
  function TagLines(lines: seq<string>): (tags: seq<string>)
    ensures |tags| <= |lines|
  {
    if lines == [] then []
    else (if Strip(lines[0]) != "" then [Strip(Trim(lines[0], TagTrim))] else []) + TagLines(lines[1..])
  }

  /** The tag list read from the captured items */
  function TagList(group: string): seq<string> {
    TagLines(SplitOn(group, '\n'))
  }

  /** "\n---" starts at `k` */
  predicate MarkerAt(c: string, k: nat) {
    k + 4 <= |c| && c[k..k + 4] == "\n---"
  }

  /** The first closing marker at or after `k` */
  function MarkerFrom(c: string, k: nat): (r: Option<nat>)
    requires k <= |c|
    ensures r.Some? ==> k <= r.value && MarkerAt(c, r.value)
    ensures r.Some? ==> forall j :: k <= j < r.value ==> !MarkerAt(c, j)
    ensures r.None? ==> forall j :: k <= j ==> !MarkerAt(c, j)
    decreases |c| - k
  {
    if k + 4 > |c| then None
    else if MarkerAt(c, k) then Some(k)
    else MarkerFrom(c, k + 1)
  }

  /**
   * `re.match(r'^---\n(.*?)\n---', content, re.DOTALL)`: the header text, which runs from after
   * the opening line to the first "\n---" after it
   */
  function HeaderOf(content: string): (r: Option<string>)
    ensures r.Some? <==> "---\n" <= content && exists k :: 4 <= k && MarkerAt(content, k)
    ensures r.Some? ==> MarkerAt(content, 4 + |r.value|) && content[4..4 + |r.value|] == r.value
    ensures r.Some? ==> forall k :: 4 <= k < 4 + |r.value| ==> !MarkerAt(content, k)
  {
    if |content| < 4 || content[..4] != "---\n" then None
    else
      match MarkerFrom(content, 4)
      case None => None
      case Some(k) => Some(content[4..k])
  }

  /** The tag list of a header text: the items after `tags:`, or none */
  function HeaderTags(fm: string): seq<string> {
    match TagsFrom(fm, 0)
    case Some(g) => TagList(g)
    case None => []
  }

  /** The tags `tags` counts in a note: those of its header, none without a header */
  function NoteTags(content: string): seq<string> {
    match HeaderOf(content)
    case None => []
    case Some(fm) => HeaderTags(fm)
  }

  /** What `list` knows of a note */
  datatype Summary = Summary(title: string, tags: seq<string>, created: Option<string>)

  /** `stem.replace('-', ' ').title()`: the title of a note whose header gives none */
  function DefaultTitle(stem: string): string {
    Title(ReplaceAll(stem, "-", " "))
  }

  /** The header reader: each field from its own search of the header text, with the defaults */
  function Summarize(stem: string, content: string): Summary {
    var fallback := DefaultTitle(stem);
    match HeaderOf(content)
    case None => Summary(fallback, [], None)
    case Some(fm) =>
      Summary(
        match FieldFrom(fm, "title:", 0) case Some(t) => Strip(t) case None => fallback,
        HeaderTags(fm),
        match FieldFrom(fm, "created:", 0) case Some(c) => Some(Strip(c)) case None => None)
  }
}
