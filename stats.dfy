/**
 * The text scan of `getPoolHeight` (Bot.go:197-213): the pattern
 * `.*"height":(\d+).*` applied to a stats body with Go's leftmost-first
 * regular-expression semantics, then `strconv.Atoi` on the captured digits.
 *
 * Go's `.` does not match a newline, so the match lies on one line: the
 * first line holding `"height":` directly followed by a digit. The greedy
 * leading `.*` then places the captured group after the LAST such token
 * on that line, and the greedy `\d+` takes the whole digit run.
 */
module Stats {
  import opened Wrappers
  import opened GoInt

  /** Why a pool's height could not be obtained. */
  datatype HeightError =
    | DownloadFailed  // the GET or reading the body failed (Bot.go:179-195)
    | NoHeightToken   // the pattern did not match (Bot.go:201-204)
    | NotAnInt        // `strconv.Atoi` rejected the digits (Bot.go:206-211)

  const HeightKey: string := "\"height\":"

  predicate IsDigit(c: char)
  {
    '0' <= c <= '9'
  }

  predicate AllDigits(ds: string)
  {
    forall t :: 0 <= t < |ds| ==> IsDigit(ds[t])
  }

  /** `"height":` starts at index `i` and is directly followed by a digit. */
  predicate TokenAt(s: string, i: int)
  {
    0 <= i && i + |HeightKey| < |s| && s[i..i + |HeightKey|] == HeightKey
    && IsDigit(s[i + |HeightKey|])
  }

  predicate NoNewline(s: string, a: int, b: int)
    requires 0 <= a <= b <= |s|
  {
    forall t :: a <= t < b ==> s[t] != '\n'
  }

  /**
   * The token the Go pattern captures: every earlier token is on the same
   * line (so this is the first line with a token) and no later token is on
   * the same line.
   */
  predicate IsSelected(s: string, i: int)
  {
    && TokenAt(s, i)
    && (forall j :: 0 <= j < i && TokenAt(s, j) ==> NoNewline(s, j, i))
    && (forall k :: i < k < |s| && TokenAt(s, k) ==> !NoNewline(s, i, k))
  }

  /** The characters of a token that the proofs below rely on. */
  lemma TokenShape(s: string, i: int)
    requires TokenAt(s, i)
    ensures s[i] == '"' && s[i + 1] == 'h' && s[i + 7] == '"' && s[i + 8] == ':'
  {
    var key := s[i..i + |HeightKey|];
    assert s[i] == key[0] && s[i + 1] == key[1] && s[i + 7] == key[7] && s[i + 8] == key[8];
  }

  /** The leftmost token at or after `from`. */
  function FirstToken(s: string, from: nat): (r: Option<nat>)
    requires from <= |s|
    ensures r.Some? ==> from <= r.value < |s| && TokenAt(s, r.value)
    ensures r.Some? ==> forall j :: from <= j < r.value ==> !TokenAt(s, j)
    ensures r.None? ==> forall j :: from <= j < |s| ==> !TokenAt(s, j)
    decreases |s| - from
  {
    if from == |s| then None
    else if TokenAt(s, from) then Some(from)
    else FirstToken(s, from + 1)
  }

  /**
   * Scanning on from `i` to the end of the line, the last token of the
   * line that holds `best`, the last token seen so far.
   */
  function LastOnLine(s: string, i: nat, best: nat): (r: nat)
    requires best < i <= |s| && TokenAt(s, best) && NoNewline(s, best, i)
    requires forall k :: best < k < i ==> !TokenAt(s, k)
    ensures best <= r && TokenAt(s, r) && NoNewline(s, best, r)
    ensures forall k :: r < k < |s| && TokenAt(s, k) ==> !NoNewline(s, r, k)
    decreases |s| - i
  {
    if i == |s| then best
    else if s[i] == '\n' then
      assert forall k :: best < k < |s| && TokenAt(s, k) ==> !NoNewline(s, best, k) by {
        forall k | best < k < |s| && TokenAt(s, k) ensures !NoNewline(s, best, k) {
          TokenShape(s, k);
        }
      }
      best
    else if TokenAt(s, i) then LastOnLine(s, i + 1, i)
    else LastOnLine(s, i + 1, best)
  }

  /** The index of the token the pattern captures, if any token exists. */
  function FindHeightToken(s: string): (r: Option<nat>)
    ensures r.None? <==> forall i :: 0 <= i < |s| ==> !TokenAt(s, i)
    ensures r.Some? ==> IsSelected(s, r.value)
  {
    match FirstToken(s, 0)
    case None => None
    case Some(f) =>
      TokenShape(s, f);
      var r := LastOnLine(s, f + 1, f);
      assert forall j :: 0 <= j < r && TokenAt(s, j) ==> NoNewline(s, j, r);
      Some(r)
  }

  /** A token has exactly one candidate for capture. */
  lemma SelectedUnique(s: string, i: int, j: int)
    requires IsSelected(s, i) && IsSelected(s, j)
    ensures i == j
  {
  }

  /** The end of the maximal run of digits that starts at index `j`. */
  function DigitsEnd(s: string, j: nat): (e: nat)
    requires j <= |s|
    ensures j <= e <= |s|
    ensures forall t :: j <= t < e ==> IsDigit(s[t])
    ensures e == |s| || !IsDigit(s[e])
    decreases |s| - j
  {
    if j == |s| || !IsDigit(s[j]) then j else DigitsEnd(s, j + 1)
  }

  /** The digits the pattern's group `(\d+)` captures after the token at `i`. */
  function CapturedDigits(s: string, i: nat): (ds: string)
    requires TokenAt(s, i)
    ensures |ds| > 0 && AllDigits(ds)
  {
    s[i + |HeightKey|..DigitsEnd(s, i + |HeightKey|)]
  }

  function DigitValue(c: char): nat
    requires IsDigit(c)
  {
    c as int - '0' as int
  }

  /** The number a string of decimal digits denotes (leading zeros allowed). */
  function DecimalValue(ds: string): nat
    requires AllDigits(ds)
  {
    if ds == [] then 0
    else 10 * DecimalValue(ds[..|ds| - 1]) + DigitValue(ds[|ds| - 1])
  }

  /** A digit string denotes zero exactly when all its digits are `0`. */
  lemma {:induction false} DecimalValueZero(ds: string)
    requires AllDigits(ds)
    ensures DecimalValue(ds) == 0 <==> forall t :: 0 <= t < |ds| ==> ds[t] == '0'
  {
    if ds != [] {
      var init := ds[..|ds| - 1];
      DecimalValueZero(init);
      assert forall t :: 0 <= t < |init| ==> init[t] == ds[t];
    }
  }

  /** The decimal rendering of `n`, without leading zeros. */
  function Decimal(n: nat): (ds: string)
    ensures |ds| > 0 && AllDigits(ds)
    ensures n > 0 ==> ds[0] != '0'
  {
    var d := ['0' + (n % 10) as char];
    if n < 10 then d else Decimal(n / 10) + d
  }

  lemma {:induction false} DecimalRoundTrip(n: nat)
    ensures DecimalValue(Decimal(n)) == n
  {
    var ds := Decimal(n);
    if n >= 10 {
      DecimalRoundTrip(n / 10);
      assert ds[..|ds| - 1] == Decimal(n / 10);
    }
  }

  /**
   * `strconv.Atoi` on a non-empty run of ASCII digits: the denoted value,
   * or a range error when it exceeds Go's 64-bit `int`.
   */
  function Atoi(ds: string): (r: Result<Int64, HeightError>)
    requires |ds| > 0 && AllDigits(ds)
    ensures r.Ok? || r == Err(NotAnInt)
  {
    var v := DecimalValue(ds);
    if v <= MaxInt64 then Ok(v) else Err(NotAnInt)
  }

  /** `Atoi` reads back every rendering: the value in range, a range error above it. */
  lemma AtoiOfDecimal(n: nat)
    ensures n <= MaxInt64 ==> Atoi(Decimal(n)) == Ok(n)
    ensures n > MaxInt64 ==> Atoi(Decimal(n)) == Err(NotAnInt)
  {
    DecimalRoundTrip(n);
  }

  /**
   * The parse half of `getPoolHeight` (Bot.go:197-213): the height the
   * pattern captures, converted with `strconv.Atoi`.
   */
  function ParseHeight(body: string): (r: Result<Int64, HeightError>)
    ensures r == Err(NoHeightToken) <==> forall i :: 0 <= i < |body| ==> !TokenAt(body, i)
    ensures r != Err(NoHeightToken) ==>
      exists i :: IsSelected(body, i) && r == Atoi(CapturedDigits(body, i))
    ensures r.Ok? ==> r.value >= 0
    ensures r != Err(DownloadFailed)
  {
    match FindHeightToken(body)
    case None => Err(NoHeightToken)
    case Some(i) => Atoi(CapturedDigits(body, i))
  }

  /** Whichever token is the captured one determines the result. */
  lemma ParseHeightOfSelected(body: string, i: int)
    requires IsSelected(body, i)
    ensures ParseHeight(body) == Atoi(CapturedDigits(body, i))
  {
    var j :| IsSelected(body, j) && ParseHeight(body) == Atoi(CapturedDigits(body, j));
    SelectedUnique(body, i, j);
  }

  predicate QuoteFree(s: string)
  {
    forall t :: 0 <= t < |s| ==> s[t] != '"'
  }

  /** In a body with no other quote, the one `"height":<digits>` is the selected token. */
  lemma OnlyTokenSelected(pre: string, ds: string, post: string)
    requires QuoteFree(pre) && QuoteFree(post)
    requires |ds| > 0 && AllDigits(ds)
    ensures IsSelected(pre + HeightKey + ds + post, |pre|)
  {
    var s := pre + HeightKey + ds + post;
    var p, q := |pre|, |pre| + |HeightKey|;
    assert s[p..q] == HeightKey;
    assert s[q] == ds[0];
    assert TokenAt(s, p);
    forall k | 0 <= k < |s| && k != p && TokenAt(s, k) ensures false {
      TokenShape(s, k);
    }
  }

  /** The digits captured after the token are exactly `ds` when `post` does not continue them. */
  lemma CapturedAfterToken(pre: string, ds: string, post: string)
    requires |ds| > 0 && AllDigits(ds)
    requires post == [] || !IsDigit(post[0])
    ensures TokenAt(pre + HeightKey + ds + post, |pre|)
    ensures CapturedDigits(pre + HeightKey + ds + post, |pre|) == ds
  {
    var s := pre + HeightKey + ds + post;
    var p, q := |pre|, |pre| + |HeightKey|;
    assert s[p..q] == HeightKey;
    assert s[q] == ds[0];
    assert forall t :: q <= t < q + |ds| ==> s[t] == ds[t - q];
    assert q + |ds| < |s| ==> s[q + |ds|] == post[0];
    assert DigitsEnd(s, q) == q + |ds|;
  }

  /**
   * A body with one `"height":<digits>` token in it: the height is the
   * rendered number, or a range error when it exceeds 64 bits.
   */
  lemma ParseSingleToken(pre: string, n: nat, post: string)
    requires QuoteFree(pre) && QuoteFree(post)
    requires post == [] || !IsDigit(post[0])
    ensures n <= MaxInt64 ==> ParseHeight(pre + HeightKey + Decimal(n) + post) == Ok(n)
    ensures n > MaxInt64 ==> ParseHeight(pre + HeightKey + Decimal(n) + post) == Err(NotAnInt)
  {
    var ds := Decimal(n);
    var s := pre + HeightKey + ds + post;
    OnlyTokenSelected(pre, ds, post);
    CapturedAfterToken(pre, ds, post);
    ParseHeightOfSelected(s, |pre|);
    AtoiOfDecimal(n);
  }

  /**
   * A quoted value after `"height":` is no match when the body has no
   * other quote and the closing quote is not followed by a colon: the body
   * `{"height":"not-a-number"}` yields no height. (With another token
   * elsewhere, as in `{"height":"x","height":5}`, that token is parsed.)
   */
  lemma ParseQuotedValue(pre: string, w: string, post: string)
    requires QuoteFree(pre) && QuoteFree(w) && QuoteFree(post)
    requires post == [] || post[0] != ':'
    ensures ParseHeight(pre + HeightKey + "\"" + w + "\"" + post) == Err(NoHeightToken)
  {
    var s := pre + HeightKey + "\"" + w + "\"" + post;
    var p, q := |pre|, |pre| + |HeightKey|;
    var c := q + 1 + |w|;
    assert s[q] == '"' && s[c] == '"';
    forall k | 0 <= k < |s| && TokenAt(s, k) ensures false {
      TokenShape(s, k);
    }
  }

  lemma ParseHeightExampleNumber()
    ensures ParseHeight("{\"height\":12345}") == Ok(12345)
  {
    assert Decimal(12345) == "12345";
    assert "{\"height\":12345}" == "{" + HeightKey + Decimal(12345) + "}";
    ParseSingleToken("{", 12345, "}");
  }

  lemma ParseHeightExampleJunk()
    ensures ParseHeight("junk {\"height\":999} junk") == Ok(999)
  {
    assert Decimal(999) == "999";
    assert "junk {\"height\":999} junk" == "junk {" + HeightKey + Decimal(999) + "} junk";
    ParseSingleToken("junk {", 999, "} junk");
  }

  lemma ParseHeightExampleQuoted()
    ensures ParseHeight("{\"height\":\"not-a-number\"}") == Err(NoHeightToken)
  {
    assert "{\"height\":\"not-a-number\"}" == "{" + HeightKey + "\"" + "not-a-number" + "\"" + "}";
    ParseQuotedValue("{", "not-a-number", "}");
  }

  /** Two tokens on the first line and a third on the second. */
  const LinesBody: string := "\"height\":1,\"height\":2\n\"height\":3"

  /** In `LinesBody`, the token at 11 (the second on the first line) is the captured one. */
  lemma LinesBodySelected()
    ensures IsSelected(LinesBody, 11)
  {
    var s := LinesBody;
    assert TokenAt(s, 11);
    forall j | 0 <= j < 11 && TokenAt(s, j) ensures NoNewline(s, j, 11) {
      TokenShape(s, j);
    }
    assert s[21] == '\n';
    forall k | 11 < k < |s| && TokenAt(s, k) ensures !NoNewline(s, 11, k) {
      TokenShape(s, k);
    }
  }

  /** The digit run after the token at 11 of `LinesBody` is `2`. */
  lemma LinesBodyCaptured()
    ensures TokenAt(LinesBody, 11) && CapturedDigits(LinesBody, 11) == "2"
  {
    assert TokenAt(LinesBody, 11);
    assert DigitsEnd(LinesBody, 20) == 21;
  }

  /**
   * Several tokens: the capture is the last token of the first line that
   * has one, so `"height":1,"height":2` followed by a line `"height":3`
   * yields 2.
   */
  lemma ParseHeightExampleLastOnFirstLine()
    ensures ParseHeight(LinesBody) == Ok(2)
  {
    LinesBodySelected();
    LinesBodyCaptured();
    ParseHeightOfSelected(LinesBody, 11);
  }
}
