/**
 * The two regular expressions of the duration variant, written out as scanners
 * over ASCII text:
 *   - `re.search(r'(\d{4})', s)`: the first run of four digits (a date's year);
 *   - `re.findall(r'(\d+)\+?\s*year[s]?', s, re.IGNORECASE)`: every
 *     "N years" / "N+ year" phrase of a requirement, left to right.
 */
module YearScan {
  import opened Wrappers
  import opened Texts

  // ---------------------------------------------------------------------------
  // First four-digit run

  /** Four ASCII digits start at position `i`. */
  predicate FourDigitsAt(s: string, i: int) {
    0 <= i && i + 4 <= |s| && AllDigits(s[i..i + 4])
  }

  /** Leftmost position at or after `from` where four digits start. */
  function YearPosFrom(s: string, from: nat): (r: Option<nat>)
    requires from <= |s|
    ensures r.Some? ==> from <= r.value && FourDigitsAt(s, r.value)
    ensures r.Some? ==> forall m :: from <= m < r.value ==> !FourDigitsAt(s, m)
    ensures r.None? ==> forall m :: from <= m ==> !FourDigitsAt(s, m)
    decreases |s| - from
  {
    if from + 4 > |s| then None
    else if FourDigitsAt(s, from) then Some(from)
    else YearPosFrom(s, from + 1)
  }

  /** `int(re.search(r'(\d{4})', s).group(1))`, or None when the search fails. */
  function FirstYear(s: string): (r: Option<nat>)
    ensures r.None? <==> forall m :: !FourDigitsAt(s, m)
    ensures r.Some? ==> r.value < 10000
    ensures r.Some? ==> exists i :: FourDigitsAt(s, i) && r.value == DigitsValue(s[i..i + 4])
                                    && forall m :: 0 <= m < i ==> !FourDigitsAt(s, m)
  {
    match YearPosFrom(s, 0)
    case None => None
    case Some(i) =>
      DigitsValueBound(s[i..i + 4]);
      assert Pow10(4) == 10 * Pow10(3) == 100 * Pow10(2) == 10000;
      Some(DigitsValue(s[i..i + 4]))
  }

  function Pow10(n: nat): nat {
    if n == 0 then 1 else 10 * Pow10(n - 1)
  }

  lemma {:induction false} DigitsValueBound(d: string)
    requires AllDigits(d)
    ensures DigitsValue(d) < Pow10(|d|)
  {
    if |d| > 0 {
      DigitsValueBound(d[..|d| - 1]);
    }
  }

  // ---------------------------------------------------------------------------
  // "N+ years" phrases

  /** End of the maximal digit run starting at `i`. */
  function DigitRunEnd(s: string, i: nat): (j: nat)
    requires i <= |s|
    ensures i <= j <= |s|
    ensures forall k :: i <= k < j ==> IsDigit(s[k])
    ensures j == |s| || !IsDigit(s[j])
    decreases |s| - i
  {
    if i < |s| && IsDigit(s[i]) then DigitRunEnd(s, i + 1) else i
  }

  /** End of the maximal whitespace run starting at `i`. */
  function SpaceRunEnd(s: string, i: nat): (j: nat)
    requires i <= |s|
    ensures i <= j <= |s|
    ensures forall k :: i <= k < j ==> IsSpace(s[k])
    decreases |s| - i
  {
    if i < |s| && IsSpace(s[i]) then SpaceRunEnd(s, i + 1) else i
  }

  /** "year" in any letter case starts at `i`. */
  predicate YearWordAt(s: string, i: nat) {
    i + 4 <= |s| && Lower(s[i..i + 4]) == "year"
  }

  lemma YearWordHasNoDigit(s: string, i: nat)
    requires YearWordAt(s, i)
    ensures forall m :: i <= m < i + 4 ==> !IsDigit(s[m])
  {
    forall m | i <= m < i + 4
      ensures !IsDigit(s[m])
    {
      assert Lower(s[i..i + 4])[m - i] == LowerChar(s[m]);
      assert "year"[m - i] != LowerChar(s[m]) || !IsDigit(s[m]);
    }
  }

  /** Where the greedy match of `(\d+)\+?\s*` starting at `i` ends: after the
      whole digit run, an optional `+` and the whole blank run. */
  function GreedyPrefixEnd(s: string, i: nat): (w: nat)
    requires i <= |s|
    ensures i <= w <= |s|
  {
    var j := DigitRunEnd(s, i);
    var k := if j < |s| && s[j] == '+' then j + 1 else j;
    SpaceRunEnd(s, k)
  }

  /**
   * The match of `(\d+)\+?\s*year[s]?` (ignoring case) that starts at `i`, as
   * (captured number, end of match). The number is the whole digit run at `i`,
   * and "year" must follow the greedy prefix; `NoBacktrackingMatch` shows that
   * no shorter prefix is followed by "year" either.
   */
  function PhraseAt(s: string, i: nat): (r: Option<(nat, nat)>)
    requires i <= |s|
    ensures r.Some? ==> i < |s| && IsDigit(s[i]) && i < r.value.1 <= |s|
    ensures r.Some? ==> !IsDigit(s[r.value.1 - 1])
    ensures r.Some? ==> forall m :: i < m < r.value.1 && IsDigit(s[m]) ==> IsDigit(s[m - 1])
    ensures r.Some? <==> i < |s| && IsDigit(s[i]) && YearWordAt(s, GreedyPrefixEnd(s, i))
    ensures r.Some? ==> r.value.0 == DigitsValue(s[i..DigitRunEnd(s, i)])
  {
    if i == |s| || !IsDigit(s[i]) then None
    else
      var j := DigitRunEnd(s, i);
      var k := if j < |s| && s[j] == '+' then j + 1 else j;
      var w := SpaceRunEnd(s, k);
      assert w == GreedyPrefixEnd(s, i);
      if YearWordAt(s, w) then
        var e := if w + 4 < |s| && LowerChar(s[w + 4]) == 's' then w + 5 else w + 4;
        YearWordHasNoDigit(s, w);
        assert forall m :: i <= m < j ==> s[i..j][m - i] == s[m];
        Some((DigitsValue(s[i..j]), e))
      else None
  }

  /** Backtracking finds nothing the greedy match misses: giving up digits, the
      `+` or blanks leaves a digit, `+` or blank where "year" would have to start. */
  lemma NoBacktrackingMatch(s: string, i: nat, q: nat)
    requires i < |s| && IsDigit(s[i])
    requires i < q < GreedyPrefixEnd(s, i)
    ensures !YearWordAt(s, q)
  {
    var j := DigitRunEnd(s, i);
    var k := if j < |s| && s[j] == '+' then j + 1 else j;
    assert IsDigit(s[q]) || s[q] == '+' || IsSpace(s[q]);
    if q + 4 <= |s| {
      assert Lower(s[q..q + 4])[0] == LowerChar(s[q]) != 'y';
    }
  }

  /** The captured numbers of all matches from position `i` on, as `re.findall`
      collects them: after a match the scan resumes at its end, otherwise one
      character further. */
  function PhrasesFrom(s: string, i: nat): seq<nat>
    requires i <= |s|
    decreases |s| - i
  {
    if i == |s| then []
    else match PhraseAt(s, i)
      case Some((v, e)) => [v] + PhrasesFrom(s, e)
      case None => PhrasesFrom(s, i + 1)
  }

  /** `re.findall(r'(\d+)\+?\s*year[s]?', s, re.IGNORECASE)`, converted with `int`. */
  function YearPhrases(s: string): seq<nat> {
    PhrasesFrom(s, 0)
  }

  /** Position `i` opens a digit run (no digit right before it). */
  predicate RunStart(s: string, i: int) {
    0 <= i <= |s| && (i == 0 || !IsDigit(s[i - 1]))
  }

  /** A phrase with number `v` is matched at position `i`. */
  predicate PhraseWithValueAt(s: string, i: int, v: nat) {
    0 <= i <= |s| && PhraseAt(s, i).Some? && PhraseAt(s, i).value.0 == v
  }

  /** Inside a digit run a failed match cannot succeed one position later. */
  lemma MidRunFails(s: string, p: nat)
    requires p <= |s|
    ensures 0 < p && IsDigit(s[p - 1]) && PhraseAt(s, p - 1).None? ==> PhraseAt(s, p).None?
  {
    if 0 < p && IsDigit(s[p - 1]) && p < |s| && IsDigit(s[p]) {
      assert DigitRunEnd(s, p - 1) == DigitRunEnd(s, p);
    }
  }

  /** The scan may reach position `p` without any match being missed at a run start. */
  predicate Resumable(s: string, p: nat)
    requires p <= |s|
  {
    p == 0 || !IsDigit(s[p - 1]) || PhraseAt(s, p - 1).None?
  }

  lemma {:induction false} PhrasesFromSound(s: string, p: nat, v: nat)
    requires p <= |s| && Resumable(s, p)
    requires v in PhrasesFrom(s, p)
    ensures exists i :: p <= i && RunStart(s, i) && PhraseWithValueAt(s, i, v)
    decreases |s| - p
  {
    if p < |s| {
      MidRunFails(s, p);
      match PhraseAt(s, p)
      case Some((w, e)) =>
        if v == w {
          assert RunStart(s, p) && PhraseWithValueAt(s, p, v);
        } else {
          PhrasesFromSound(s, e, v);
        }
      case None =>
        PhrasesFromSound(s, p + 1, v);
    }
  }

  lemma {:induction false} PhrasesFromComplete(s: string, p: nat, i: nat, v: nat)
    requires p <= i <= |s| && RunStart(s, i) && PhraseWithValueAt(s, i, v)
    ensures v in PhrasesFrom(s, p)
    decreases i - p
  {
    if p < i {
      match PhraseAt(s, p)
      case Some((w, e)) =>
        assert e <= i;
        PhrasesFromComplete(s, e, i, v);
      case None =>
        PhrasesFromComplete(s, p + 1, i, v);
    }
  }

  /** The numbers `findall` returns are exactly those of the matches that start a digit run. */
  lemma YearPhrasesExactly(s: string, v: nat)
    ensures v in YearPhrases(s) <==> exists i :: RunStart(s, i) && PhraseWithValueAt(s, i, v)
  {
    if v in YearPhrases(s) {
      PhrasesFromSound(s, 0, v);
    }
    if exists i :: RunStart(s, i) && PhraseWithValueAt(s, i, v) {
      var i :| RunStart(s, i) && PhraseWithValueAt(s, i, v);
      PhrasesFromComplete(s, 0, i, v);
    }
  }

  /** No digit occurs from position `p` on. */
  predicate DigitFreeFrom(s: string, p: nat)
    requires p <= |s|
    decreases |s| - p
  {
    p == |s| || (!IsDigit(s[p]) && DigitFreeFrom(s, p + 1))
  }

  /** A suffix in which no character is a digit is digit-free. */
  lemma {:induction false} DigitFreeSuffix(s: string, p: nat)
    requires p <= |s|
    requires forall k :: p <= k < |s| ==> !IsDigit(s[k])
    ensures DigitFreeFrom(s, p)
    decreases |s| - p
  {
    if p < |s| {
      DigitFreeSuffix(s, p + 1);
    }
  }

  /** Text without digits holds no phrase. */
  lemma {:induction false} NoDigitsNoPhrases(s: string, p: nat)
    requires p <= |s| && DigitFreeFrom(s, p)
    ensures PhrasesFrom(s, p) == []
    decreases |s| - p
  {
    if p < |s| {
      NoDigitsNoPhrases(s, p + 1);
    }
  }
}
