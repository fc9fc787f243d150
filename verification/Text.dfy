/** The string operations of the Rust standard library that the models use. */
module Text {
  /** char::is_whitespace: the Unicode White_Space property. */
  predicate IsWhitespace(c: char) {
    || '\t' <= c <= '\r'
    || c == ' ' || c == '\U{85}' || c == '\U{A0}' || c == '\U{1680}'
    || '\U{2000}' <= c <= '\U{200A}'
    || c == '\U{2028}' || c == '\U{2029}' || c == '\U{202F}' || c == '\U{205F}' || c == '\U{3000}'
  }

  /** The two classes of characters that get trimmed. */
  datatype CharClass = Whitespace | Dash {
    predicate Has(c: char) {
      match this
      case Whitespace => IsWhitespace(c)
      case Dash => c == '-'
    }
  }

  /** The first position at or after i whose character is kept. */
  function SkipFrom(drop: CharClass, s: string, i: nat): (r: nat)
    requires i <= |s|
    ensures i <= r <= |s|
    ensures forall k | i <= k < r :: drop.Has(s[k])
    ensures r < |s| ==> !drop.Has(s[r])
    decreases |s| - i
  {
    if i < |s| && drop.Has(s[i]) then SkipFrom(drop, s, i + 1) else i
  }

  /** The end of the text before j once dropped characters are taken off, no lower than i. */
  function BackTo(drop: CharClass, s: string, i: nat, j: nat): (r: nat)
    requires i <= j <= |s|
    ensures i <= r <= j
    ensures forall k | r <= k < j :: drop.Has(s[k])
    ensures i < r ==> !drop.Has(s[r - 1])
    decreases j
  {
    if i < j && drop.Has(s[j - 1]) then BackTo(drop, s, i, j - 1) else j
  }

  function TrimStart(drop: CharClass, s: string): (i: nat)
    ensures i <= |s|
  {
    SkipFrom(drop, s, 0)
  }

  function TrimEnd(drop: CharClass, s: string): (j: nat)
    ensures TrimStart(drop, s) <= j <= |s|
  {
    BackTo(drop, s, TrimStart(drop, s), |s|)
  }

  /** str::trim_matches. */
  function TrimBy(drop: CharClass, s: string): (r: string) {
    s[TrimStart(drop, s)..TrimEnd(drop, s)]
  }

  /** str::trim. */
  function Trim(s: string): (r: string) {
    TrimBy(Whitespace, s)
  }

  predicate IsBlank(s: string) {
    Trim(s) == ""
  }

  /** Neither end would be trimmed. */
  predicate Bare(drop: CharClass, s: string) {
    s != "" ==> !drop.Has(s[0]) && !drop.Has(s[|s| - 1])
  }

  /** Every character would be trimmed. */
  predicate All(drop: CharClass, s: string) {
    forall k | 0 <= k < |s| :: drop.Has(s[k])
  }

  lemma AllSlice(drop: CharClass, s: string, i: nat, j: nat)
    requires i <= j <= |s| && forall k | i <= k < j :: drop.Has(s[k])
    ensures All(drop, s[i..j])
  {
    hide IsWhitespace;
    forall k | 0 <= k < j - i
      ensures drop.Has(s[i..j][k])
    {
      assert s[i..j][k] == s[i + k];
    }
  }

  lemma Halves(s: string, i: nat, j: nat)
    requires i <= j <= |s|
    ensures s == s[..i] + s[i..j] + s[j..]
  {
  }

  lemma TrimByIsBare(drop: CharClass, s: string)
    ensures Bare(drop, TrimBy(drop, s))
  {
    hide IsWhitespace;
    var i, j := TrimStart(drop, s), TrimEnd(drop, s);
    if i < j { assert s[i..j][0] == s[i] && s[i..j][j - i - 1] == s[j - 1]; }
  }

  /** Trimming takes dropped characters off both ends and nothing else. */
  lemma TrimByShape(drop: CharClass, s: string) returns (pre: string, post: string)
    ensures s == pre + TrimBy(drop, s) + post
    ensures All(drop, pre) && All(drop, post) && Bare(drop, TrimBy(drop, s))
  {
    hide IsWhitespace, SkipFrom, BackTo, All, Bare;
    var i, j := TrimStart(drop, s), TrimEnd(drop, s);
    pre, post := s[..i], s[j..];
    AllSlice(drop, s, 0, i);
    AllSlice(drop, s, j, |s|);
    assert pre == s[0..i] && post == s[j..|s|];
    TrimByIsBare(drop, s);
    Halves(s, i, j);
  }

  /** Whatever the padding, trimming padded bare text gives the text back. */
  lemma TrimByPadded(drop: CharClass, pre: string, mid: string, post: string)
    requires All(drop, pre) && All(drop, post) && Bare(drop, mid)
    ensures TrimBy(drop, pre + mid + post) == mid
  {
    hide IsWhitespace, SkipFrom, BackTo;
    var s := pre + mid + post;
    var i, j := TrimStart(drop, s), TrimEnd(drop, s);
    if mid == "" {
      assert forall k | 0 <= k < |s| :: drop.Has(s[k]);
      assert i == |s|;
    } else {
      assert s[|pre|] == mid[0] && s[|pre| + |mid| - 1] == mid[|mid| - 1];
      assert forall k | 0 <= k < |pre| :: s[k] == pre[k];
      assert forall k | |pre| + |mid| <= k < |s| :: s[k] == post[k - |pre| - |mid|];
      assert i == |pre| && j == |pre| + |mid|;
      assert s[i..j] == mid;
    }
  }

  lemma TrimByBare(drop: CharClass, s: string)
    requires Bare(drop, s)
    ensures TrimBy(drop, s) == s
  {
    TrimByPadded(drop, "", s, "");
    assert "" + s + "" == s;
  }

  lemma TrimByIdempotent(drop: CharClass, s: string)
    ensures TrimBy(drop, TrimBy(drop, s)) == TrimBy(drop, s)
  {
    var pre, post := TrimByShape(drop, s);
    TrimByBare(drop, TrimBy(drop, s));
  }

  // ---- length in UTF-8 ----

  function Utf8Width(c: char): nat {
    if c < '\U{80}' then 1 else if c < '\U{800}' then 2 else if c < '\U{10000}' then 3 else 4
  }

  function Bytes(s: string): nat {
    if s == "" then 0 else Utf8Width(s[0]) + Bytes(s[1..])
  }

  lemma {:induction false} AsciiBytes(s: string)
    requires forall i | 0 <= i < |s| :: s[i] < '\U{80}'
    ensures Bytes(s) == |s|
  {
    if s != "" { AsciiBytes(s[1..]); }
  }

  // ---- case ----

  /** Lower-casing, character by character. */
  function Lowered(lower: char -> string, s: string): string {
    if s == "" then "" else lower(s[0]) + Lowered(lower, s[1..])
  }

  lemma Regrouped(a: string, b: string, c: string)
    ensures a + b + c == a + (b + c)
  {
  }

  lemma {:induction false} LoweredConcat(lower: char -> string, a: string, b: string)
    ensures Lowered(lower, a + b) == Lowered(lower, a) + Lowered(lower, b)
  {
    if a == "" {
      assert a + b == b;
    } else {
      LoweredConcat(lower, a[1..], b);
      assert (a + b)[0] == a[0] && (a + b)[1..] == a[1..] + b;
      Regrouped(lower(a[0]), Lowered(lower, a[1..]), Lowered(lower, b));
    }
  }
}
