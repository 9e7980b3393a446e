/** The string operations the engine relies on: the placeholder pattern
    `/:[a-zA-Z0-9]+/g`, `split('.')` and `join('.')`, the first-occurrence
    `replace` of a string pattern, and `toUpperCase`. */
module Text {
  import opened Types

  predicate IsAlnum(c: char) {
    'a' <= c <= 'z' || 'A' <= c <= 'Z' || '0' <= c <= '9'
  }

  /** The end of the run of alphanumerics that starts at `i`. */
  function RunEnd(s: string, i: nat): (j: nat)
    requires i <= |s|
    ensures i <= j <= |s|
    ensures forall k :: i <= k < j ==> IsAlnum(s[k])
    ensures j == |s| || !IsAlnum(s[j])
    decreases |s| - i
  {
    if i < |s| && IsAlnum(s[i]) then RunEnd(s, i + 1) else i
  }

  /** A placeholder starts at `i`: a colon followed by an alphanumeric. */
  predicate StartsToken(s: string, i: nat) {
    i + 1 < |s| && s[i] == ':' && IsAlnum(s[i + 1])
  }

  /** The name of the placeholder that starts at `i`: the longest alphanumeric run after the colon. */
  function TokenAt(s: string, i: nat): string
    requires StartsToken(s, i)
  {
    s[i + 1..RunEnd(s, i + 1)]
  }

  /** The scanner: from `i` on, take each match of the pattern left to right and
      resume the search right after it, as a global regular-expression match does. */
  function Scan(s: string, i: nat): seq<string>
    requires i <= |s|
    decreases |s| - i
  {
    if i == |s| then []
    else if StartsToken(s, i) then [TokenAt(s, i)] + Scan(s, RunEnd(s, i + 1))
    else Scan(s, i + 1)
  }

  /** The placeholder names of a path, `path.match(/:[a-zA-Z0-9]+/g)` without the colons. */
  function Placeholders(s: string): seq<string> {
    Scan(s, 0)
  }

  /** Reference definition: one name for every position holding a colon followed
      by an alphanumeric, without skipping over matches. */
  function TokensFrom(s: string, i: nat): seq<string>
    requires i <= |s|
    decreases |s| - i
  {
    if i == |s| then []
    else (if StartsToken(s, i) then [TokenAt(s, i)] else []) + TokensFrom(s, i + 1)
  }

  /** No placeholder starts inside a run of alphanumerics. */
  lemma {:induction false} NoTokensInRun(s: string, a: nat, b: nat)
    requires a <= b <= |s|
    requires forall k :: a <= k < b ==> IsAlnum(s[k])
    ensures TokensFrom(s, a) == TokensFrom(s, b)
    decreases b - a
  {
    if a < b {
      assert !StartsToken(s, a);
      NoTokensInRun(s, a + 1, b);
    }
  }

  /** The greedy, non-overlapping scanner finds exactly the placeholders the
      per-position definition names: skipping past a match loses nothing. */
  lemma {:induction false} ScanIsTokens(s: string, i: nat)
    requires i <= |s|
    ensures Scan(s, i) == TokensFrom(s, i)
    decreases |s| - i
  {
    if i < |s| {
      if StartsToken(s, i) {
        var j := RunEnd(s, i + 1);
        ScanIsTokens(s, j);
        NoTokensInRun(s, i + 1, j);
      } else {
        ScanIsTokens(s, i + 1);
      }
    }
  }

  /** Every name found is non-empty and purely alphanumeric. */
  lemma {:induction false} ScanNames(s: string, i: nat)
    requires i <= |s|
    ensures forall n :: n in Scan(s, i) ==> |n| > 0 && forall c :: c in n ==> IsAlnum(c)
    decreases |s| - i
  {
    if i < |s| {
      if StartsToken(s, i) {
        ScanNames(s, RunEnd(s, i + 1));
      } else {
        ScanNames(s, i + 1);
      }
    }
  }

  /** A string holding no colon followed by an alphanumeric has no placeholder. */
  lemma {:induction false} NoColonNoPlaceholders(s: string, i: nat)
    requires i <= |s|
    requires forall k :: i <= k < |s| ==> !StartsToken(s, k)
    ensures Scan(s, i) == []
    decreases |s| - i
  {
    if i < |s| {
      NoColonNoPlaceholders(s, i + 1);
    }
  }

  // ---------------------------------------------------------------- split / join

  /** `s.split('.')`. */
  function Split(s: string): (parts: seq<string>)
    ensures |parts| >= 1
    decreases |s|
  {
    if |s| == 0 then [""]
    else if s[0] == '.' then [""] + Split(s[1..])
    else
      var rest := Split(s[1..]);
      [[s[0]] + rest[0]] + rest[1..]
  }

  /** `parts.join('.')`. */
  function Join(parts: seq<string>): string
    requires |parts| >= 1
    decreases |parts|
  {
    if |parts| == 1 then parts[0] else parts[0] + "." + Join(parts[1..])
  }

  predicate NoDots(parts: seq<string>) {
    forall i :: 0 <= i < |parts| ==> '.' !in parts[i]
  }

  /** Splitting yields dot-free segments. */
  lemma {:induction false} SplitNoDots(s: string)
    ensures NoDots(Split(s))
    decreases |s|
  {
    if |s| > 0 {
      SplitNoDots(s[1..]);
      if s[0] != '.' {
        var rest := Split(s[1..]);
        assert '.' !in rest[0];
        assert forall c :: c in [s[0]] + rest[0] ==> c == s[0] || c in rest[0];
      }
    }
  }

  /** Joining what was split gives back the string. */
  lemma {:induction false} JoinSplit(s: string)
    ensures Join(Split(s)) == s
    decreases |s|
  {
    if |s| > 0 {
      var rest := Split(s[1..]);
      JoinSplit(s[1..]);
      if s[0] != '.' {
        if |rest| == 1 {
          assert Split(s) == [[s[0]] + rest[0]];
        } else {
          var parts := Split(s);
          assert parts[1..] == rest[1..];
          assert Join(parts) == [s[0]] + rest[0] + "." + Join(rest[1..]);
        }
      }
    }
  }

  /** Splitting a join of dot-free segments gives back the segments: the
      round trip `with` relies on when it recurses on `rest.join('.')`. */
  lemma {:induction false} SplitJoin(parts: seq<string>)
    requires |parts| >= 1
    requires NoDots(parts)
    ensures Split(Join(parts)) == parts
    decreases |parts|, |parts[0]|
  {
    var p := parts[0];
    if |p| == 0 {
      if |parts| > 1 {
        SplitJoin(parts[1..]);
        assert Join(parts) == "." + Join(parts[1..]);
        assert ("." + Join(parts[1..]))[1..] == Join(parts[1..]);
      }
    } else {
      assert p[0] in p;
      var shorter := [p[1..]] + parts[1..];
      assert NoDots(shorter) by {
        forall i | 0 <= i < |shorter| ensures '.' !in shorter[i] {
          if i == 0 {
            assert forall c :: c in p[1..] ==> c in p;
          } else {
            assert shorter[i] == parts[i];
          }
        }
      }
      SplitJoin(shorter);
      var j := Join(parts);
      assert shorter[1..] == parts[1..];
      if |parts| == 1 {
        assert j == p;
        assert j[1..] == Join(shorter);
      } else {
        assert j == p + "." + Join(parts[1..]);
        assert Join(shorter) == p[1..] + "." + Join(parts[1..]);
        assert j[1..] == Join(shorter);
      }
      assert j[0] == p[0];
      var rest := Split(j[1..]);
      assert rest == shorter;
      assert Split(j) == [[p[0]] + p[1..]] + parts[1..];
      assert [p[0]] + p[1..] == p;
    }
  }

  /** The length of a join: `with` recurses on a strictly shorter path. */
  lemma {:induction false} JoinRestShorter(parts: seq<string>)
    requires |parts| >= 2
    ensures |Join(parts[1..])| < |Join(parts)|
  {
  }

  // ---------------------------------------------------------------- replace

  predicate OccursAt(s: string, pat: string, i: nat) {
    i + |pat| <= |s| && s[i..i + |pat|] == pat
  }

  /** The first position at or after `i` where `pat` occurs. */
  function Find(s: string, pat: string, i: nat): (r: Option<nat>)
    requires i <= |s|
    ensures r.Some? ==> i <= r.value && OccursAt(s, pat, r.value)
    ensures r.Some? ==> forall k :: i <= k < r.value ==> !OccursAt(s, pat, k)
    ensures r.None? ==> forall k :: i <= k <= |s| ==> !OccursAt(s, pat, k)
    decreases |s| - i
  {
    if OccursAt(s, pat, i) then Some(i)
    else if i == |s| then None
    else Find(s, pat, i + 1)
  }

  /** `s.replace(pat, rep)` with a string pattern: only the first occurrence is replaced. */
  function ReplaceFirst(s: string, pat: string, rep: string): string {
    match Find(s, pat, 0)
    case None => s
    case Some(i) => s[..i] + rep + s[i + |pat|..]
  }

  /** ReplaceFirst rewrites exactly the leftmost occurrence and leaves a string
      without any occurrence unchanged. */
  lemma ReplaceFirstSpec(s: string, pat: string, rep: string, i: nat)
    requires OccursAt(s, pat, i)
    requires forall k :: 0 <= k < i ==> !OccursAt(s, pat, k)
    ensures ReplaceFirst(s, pat, rep) == s[..i] + rep + s[i + |pat|..]
  {
    assert Find(s, pat, 0).Some?;
  }

  lemma ReplaceFirstAbsent(s: string, pat: string, rep: string)
    requires forall k :: 0 <= k <= |s| ==> !OccursAt(s, pat, k)
    ensures ReplaceFirst(s, pat, rep) == s
  {
  }

  // ---------------------------------------------------------------- toUpperCase

  predicate IsLower(c: char) { 'a' <= c <= 'z' }

  /** `toUpperCase` on ASCII letters. */
  function Upper(s: string): string {
    if |s| == 0 then ""
    else [if IsLower(s[0]) then (s[0] as int - 32) as char else s[0]] + Upper(s[1..])
  }

  /** No lower-case letter is left in an upper-cased string. */
  lemma {:induction false} UpperHasNoLower(s: string)
    ensures |Upper(s)| == |s|
    ensures forall i :: 0 <= i < |s| ==> !IsLower(Upper(s)[i])
  {
    if |s| > 0 {
      UpperHasNoLower(s[1..]);
      assert forall i :: 1 <= i < |s| ==> Upper(s)[i] == Upper(s[1..])[i - 1];
    }
  }

  /** A string without lower-case letters is its own upper case. */
  lemma {:induction false} UpperOfUpper(s: string)
    requires forall i :: 0 <= i < |s| ==> !IsLower(s[i])
    ensures Upper(s) == s
  {
    if |s| > 0 {
      UpperOfUpper(s[1..]);
      assert s == [s[0]] + s[1..];
    }
  }
}
