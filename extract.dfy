/**
 * The micro-parser of the loader's callback: it locates the
 * `exports.locals = {...};` block in css-loader's output and collects the
 * quoted keys `"<key>":` inside it, in first-seen order and without repeats.
 * The two regular expressions involved are modelled as the search a
 * backtracking regex engine performs for those two patterns.
 */
module Extract {
  import opened Text
  import opened Seqs

  const LocalsOpen: string := "exports.locals = {"
  const LocalsClose: string := "};"

  /** The locals regex can match with `exports.locals = {` at `i` and `};` at `j`. */
  predicate LocalsMatch(content: string, i: int, j: int) {
    OccursAt(content, i, LocalsOpen) && i + |LocalsOpen| <= j && OccursAt(content, j, LocalsClose)
  }

  /**
   * Where `/exports\.locals = {([\s\S]*)};/` matches: the leftmost start, and for
   * that start the longest match (the greedy `[\s\S]*` runs to the last `};`).
   */
  function FindLocals(content: string): (r: Option<(nat, nat)>)
    ensures r.Some? ==> LocalsMatch(content, r.value.0, r.value.1)
    ensures r.Some? ==> forall i, j :: LocalsMatch(content, i, j) ==>
                          r.value.0 < i || (r.value.0 == i && j <= r.value.1)
    ensures r.None? ==> forall i, j :: !LocalsMatch(content, i, j)
  {
    match FindFrom(content, LocalsOpen, 0)
    case None => None
    case Some(i) =>
      match FindLastBelow(content, LocalsClose, i + |LocalsOpen|, |content| + 1)
      case None => None
      case Some(j) => Some((i, j))
  }

  /**
   * The regex's capture group: the text between the braces of the leftmost,
   * then longest, match, or None when it does not match.
   */
  function LocalsContent(content: string): (r: Option<string>)
    ensures r.None? <==> forall i, j :: !LocalsMatch(content, i, j)
    ensures r.Some? ==> exists i, j ::
              && LocalsMatch(content, i, j)
              && r.value == content[i + |LocalsOpen|..j]
              && forall i', j' :: LocalsMatch(content, i', j') ==> i < i' || (i == i' && j' <= j)
  {
    match FindLocals(content)
    case None => None
    case Some((i, j)) => Some(content[i + |LocalsOpen|..j])
  }

  /** The characters `[^\\"]` accepts. */
  predicate IsKeyChar(c: char) {
    c != '"' && c != '\\'
  }

  /** What the capture group of `"([^\\"]+)":` can hold. */
  predicate IsKey(k: string) {
    k != [] && forall i :: 0 <= i < |k| ==> IsKeyChar(k[i])
  }

  /** `"([^\\"]+)":` matches at `p` with a key of `n` characters. */
  predicate KeyPatternAt(s: string, p: int, n: int) {
    && 0 <= p && 1 <= n && p + n + 3 <= |s|
    && s[p] == '"' && IsKey(s[p + 1..p + 1 + n]) && s[p + 1 + n] == '"' && s[p + 2 + n] == ':'
  }

  /** The number of key characters starting at `i` (what the greedy `[^\\"]+` consumes). */
  function KeyCharRun(s: string, i: nat): (n: nat)
    requires i <= |s|
    ensures i + n <= |s|
    ensures forall k :: i <= k < i + n ==> IsKeyChar(s[k])
    ensures i + n < |s| ==> !IsKeyChar(s[i + n])
    decreases |s| - i
  {
    if i < |s| && IsKeyChar(s[i]) then 1 + KeyCharRun(s, i + 1) else 0
  }

  /** One successful `exec`: the key found at `at`, and where the search resumes (`lastIndex`). */
  datatype KeyMatch = KeyMatch(at: nat, key: string, next: nat)

  /**
   * The key regex tried at position `p` only. Backtracking the greedy run can
   * never help, because the character after a shorter run is a key character
   * and not the closing `"`; so at most one key length matches.
   */
  function MatchKeyAt(s: string, p: nat): (r: Option<KeyMatch>)
    ensures r.Some? ==> && r.value.at == p
                        && KeyPatternAt(s, p, |r.value.key|)
                        && r.value.key == s[p + 1..p + 1 + |r.value.key|]
                        && r.value.next == p + 3 + |r.value.key| <= |s|
    ensures forall n :: KeyPatternAt(s, p, n) <==> r.Some? && n == |r.value.key|
  {
    if p < |s| && s[p] == '"' then
      var n := KeyCharRun(s, p + 1);
      assert forall m | KeyPatternAt(s, p, m) :: m == n by {
        forall m | KeyPatternAt(s, p, m) ensures m == n {
          KeyPatternIsGreedyRun(s, p, m);
        }
      }
      if n >= 1 && p + n + 3 <= |s| && s[p + 1 + n] == '"' && s[p + 2 + n] == ':' then
        var key := s[p + 1..p + 1 + n];
        assert IsKey(key) by {
          forall i | 0 <= i < n ensures IsKeyChar(key[i]) {
            assert key[i] == s[p + 1 + i];
          }
        }
        Some(KeyMatch(p, key, p + 3 + n))
      else
        None
    else None
  }

  /** A matching key is exactly the greedy run of key characters after the opening `"`. */
  lemma KeyPatternIsGreedyRun(s: string, p: nat, m: nat)
    requires KeyPatternAt(s, p, m)
    ensures KeyCharRun(s, p + 1) == m
  {
    forall k | p + 1 <= k < p + 1 + m ensures IsKeyChar(s[k]) {
      assert s[k] == s[p + 1..p + 1 + m][k - (p + 1)];
    }
  }

  /**
   * `keyRegex.exec(s)` with `lastIndex == from`: the first position at or after
   * `from` where the pattern matches, trying one position after another.
   */
  function NextKey(s: string, from: nat): (r: Option<KeyMatch>)
    requires from <= |s|
    ensures r.Some? ==> from <= r.value.at && MatchKeyAt(s, r.value.at) == r
    ensures r.Some? ==> forall p :: from <= p < r.value.at ==> MatchKeyAt(s, p).None?
    ensures r.None? ==> forall p :: from <= p <= |s| ==> MatchKeyAt(s, p).None?
    decreases |s| - from
  {
    match MatchKeyAt(s, from)
    case Some(m) => Some(m)
    case None => if from == |s| then None else NextKey(s, from + 1)
  }

  /** The keys of all successive `exec` calls of the global regex, starting at `lastIndex == from`. */
  function AllKeys(s: string, from: nat): seq<string>
    requires from <= |s|
    decreases |s| - from
  {
    match NextKey(s, from)
    case None => []
    case Some(m) => [m.key] + AllKeys(s, m.next)
  }

  lemma AllKeysStep(s: string, from: nat)
    requires from <= |s| && NextKey(s, from).Some?
    ensures NextKey(s, from).value.next <= |s|
    ensures AllKeys(s, from) == [NextKey(s, from).value.key] + AllKeys(s, NextKey(s, from).value.next)
  {
  }

  /** The regex matches at `p` and captures `k`. */
  predicate KeyAt(s: string, p: int, k: string) {
    KeyPatternAt(s, p, |k|) && s[p + 1..p + 1 + |k|] == k
  }

  /** Every key the scan reports is captured by a match of the key regex at or after `from`. */
  lemma {:induction false} AllKeysSound(s: string, from: nat)
    requires from <= |s|
    ensures forall k :: k in AllKeys(s, from) ==> exists p :: from <= p && KeyAt(s, p, k)
    decreases |s| - from
  {
    match NextKey(s, from)
    case None =>
    case Some(m) =>
      AllKeysSound(s, m.next);
      assert KeyAt(s, m.at, m.key);
  }

  /** Every reported key is non-empty and holds no `"` and no `\`. */
  lemma AllKeysAreKeys(s: string, from: nat)
    requires from <= |s|
    ensures forall k :: k in AllKeys(s, from) ==> IsKey(k)
  {
    AllKeysSound(s, from);
  }

  /** The class names the callback collects from the locals block: first-seen order, no repeats. */
  function ClassNames(localsContent: string): seq<string> {
    FirstOccurrences(AllKeys(localsContent, 0))
  }

  /** The collected names are the scanned keys, each once, each a well-formed key. */
  lemma ClassNamesWellFormed(localsContent: string)
    ensures NoDup(ClassNames(localsContent))
    ensures forall k :: k in ClassNames(localsContent) <==> k in AllKeys(localsContent, 0)
    ensures forall k :: k in ClassNames(localsContent) ==> IsKey(k)
  {
    FirstOccurrencesNoDup(AllKeys(localsContent, 0));
    FirstOccurrencesElements(AllKeys(localsContent, 0));
    AllKeysAreKeys(localsContent, 0);
  }

  /** One iteration of the extraction loop keeps its invariant. */
  lemma ExtractStep(s: string, from: nat, seen: seq<string>)
    requires from <= |s| && NextKey(s, from).Some?
    ensures NextKey(s, from).value.next <= |s|
    ensures (seen + [NextKey(s, from).value.key]) + AllKeys(s, NextKey(s, from).value.next) == seen + AllKeys(s, from)
    ensures FirstOccurrences(seen + [NextKey(s, from).value.key])
         == FirstOccurrences(seen) + if IndexOf(FirstOccurrences(seen), NextKey(s, from).value.key) < 0
                                     then [NextKey(s, from).value.key] else []
  {
    var m := NextKey(s, from).value;
    AllKeysStep(s, from);
    assert (seen + [m.key]) + AllKeys(s, m.next) == seen + ([m.key] + AllKeys(s, m.next));
    FirstOccurrencesElements(seen);
    FirstOccurrencesAppend(seen, m.key);
  }

  /**
   * The extraction loop of the callback: one `exec` after another, pushing each
   * key that `indexOf` does not find yet.
   */
  method ExtractClassNames(localsContent: string) returns (classNames: seq<string>)
    ensures classNames == ClassNames(localsContent)
    ensures NoDup(classNames)
    ensures forall k :: k in classNames <==> k in AllKeys(localsContent, 0)
    ensures forall k :: k in classNames ==> IsKey(k)
  {
    classNames := [];
    var lastIndex: nat := 0;
    ghost var seen: seq<string> := [];
    var match_ := NextKey(localsContent, lastIndex);
    while match_.Some?
      invariant lastIndex <= |localsContent|
      invariant match_ == NextKey(localsContent, lastIndex)
      invariant seen + AllKeys(localsContent, lastIndex) == AllKeys(localsContent, 0)
      invariant classNames == FirstOccurrences(seen)
      decreases |localsContent| - lastIndex
    {
      var key, next := match_.value.key, match_.value.next;
      ExtractStep(localsContent, lastIndex, seen);
      if IndexOf(classNames, key) < 0 {
        classNames := classNames + [key];
      }
      seen := seen + [key];
      lastIndex := next;
      match_ := NextKey(localsContent, lastIndex);
    }
    assert AllKeys(localsContent, lastIndex) == [];
    assert seen == AllKeys(localsContent, 0);
    ClassNamesWellFormed(localsContent);
  }
}
