/**
 * Translation lookup with placeholder substitution
 * (src/utils/translateTextHelpers.ts).
 */
module TranslateText {
  import opened Wrappers
  import opened JsString

  /** The characters that `.` in a JavaScript regular expression does not match. */
  predicate IsLineTerminator(c: char)
  {
    c == '\n' || c == '\r' || c == '\U{2028}' || c == '\U{2029}'
  }

  /**
   * The lazy `(.*?)%` part of `/%(.*?)%/` started at index `k` stops at index `j`:
   * `s[j]` is a `%` and every character from `k` up to `j` is neither `%` nor a
   * line terminator.
   */
  predicate Closes(s: string, k: int, j: int)
  {
    0 <= k <= j < |s| && s[j] == '%'
    && forall m :: k <= m < j ==> s[m] != '%' && !IsLineTerminator(s[m])
  }

  /** `/%(.*?)%/` matches exactly `s[p..e]`. */
  predicate MatchAt(s: string, p: int, e: int)
  {
    0 <= p < |s| && s[p] == '%' && Closes(s, p + 1, e - 1)
  }

  /** Where the lazy `(.*?)%` started at `k` ends, if it succeeds. */
  function ClosingPercent(s: string, k: nat): (j: Option<nat>)
    ensures j.Some? ==> Closes(s, k, j.value)
    ensures j.None? ==> forall i :: !Closes(s, k, i)
    decreases |s| - k
  {
    if k >= |s| then None
    else if s[k] == '%' then Some(k)
    else if IsLineTerminator(s[k]) then
      None
    else
      var j := ClosingPercent(s, k + 1);
      assert j.None? ==> forall i :: !Closes(s, k, i) by {
        if j.None? {
          forall i ensures !Closes(s, k, i) {
            if Closes(s, k, i) {
              assert i != k;
              assert Closes(s, k + 1, i);
            }
          }
        }
      }
      j
  }

  /**
   * `variableRegex.exec(s)` searched from index `i`: the leftmost match of
   * `/%(.*?)%/` as the pair (start, end), or `None`.
   */
  function ExecFrom(s: string, i: nat): (m: Option<(nat, nat)>)
    ensures m.Some? ==> i <= m.value.0 && MatchAt(s, m.value.0, m.value.1)
    ensures m.Some? ==> forall q, e :: i <= q < m.value.0 ==> !MatchAt(s, q, e)
    ensures m.None? ==> forall q, e :: i <= q ==> !MatchAt(s, q, e)
    decreases |s| - i
  {
    if i >= |s| then None
    else if s[i] == '%' && ClosingPercent(s, i + 1).Some? then
      Some((i, ClosingPercent(s, i + 1).value + 1))
    else
      assert forall e :: !MatchAt(s, i, e);
      ExecFrom(s, i + 1)
  }

  /**
   * `variableRegex.exec(s)` with `variableRegex = /%(.*?)%/`: the leftmost
   * match, or `None` when the regex matches nowhere.
   */
  function Exec(s: string): (m: Option<(nat, nat)>)
    ensures m.Some? ==> MatchAt(s, m.value.0, m.value.1)
    ensures m.Some? ==> forall q, e :: 0 <= q < m.value.0 ==> !MatchAt(s, q, e)
    ensures m.None? ==> forall q, e :: 0 <= q ==> !MatchAt(s, q, e)
  {
    ExecFrom(s, 0)
  }

  /** `fallback.split(' ')[0]`: the fallback up to its first space. */
  function FirstWord(fallback: string): (w: string)
    ensures w <= fallback && ' ' !in w
    ensures |w| < |fallback| ==> fallback[|w|] == ' '
  {
    FirstPieceIsPrefix(fallback, ' ');
    Split(fallback, ' ')[0]
  }

  /** Two matches of the regex text at different places: the leftmost search rules out the earlier one. */
  lemma OccurrenceIsMatch(s: string, p: nat, e: nat, j: nat)
    requires MatchAt(s, p, e)
    requires OccursAt(s, s[p..e], j)
    ensures MatchAt(s, j, j + (e - p))
  {
    var m := s[p..e];
    assert forall t :: 0 <= t < |m| ==> s[j + t] == m[t] == s[p + t] by {
      forall t | 0 <= t < |m| ensures s[j + t] == m[t] {
        assert s[j..j + |m|][t] == s[j + t];
      }
    }
    assert s[j] == s[p + 0];
    assert s[j + (e - p) - 1] == s[p + (e - p - 1)];
    forall t | j + 1 <= t < j + (e - p) - 1
      ensures s[t] != '%' && !IsLineTerminator(s[t])
    {
      assert s[t] == s[p + (t - j)];
    }
  }

  /** The text of the leftmost match occurs nowhere before the match itself. */
  lemma MatchIsFirstOccurrence(found: string, p: nat, e: nat)
    requires MatchAt(found, p, e)
    requires forall q, e' :: 0 <= q < p ==> !MatchAt(found, q, e')
    ensures FirstOccurrence(found, found[p..e], p)
  {
    forall j | 0 <= j < p ensures !OccursAt(found, found[p..e], j) {
      if OccursAt(found, found[p..e], j) {
        OccurrenceIsMatch(found, p, e, j);
      }
    }
  }

  /** Replacing the text of the leftmost match replaces that match and keeps the rest. */
  lemma ReplaceAtMatch(found: string, w: string)
    requires Exec(found).Some?
    ensures var (p, e) := Exec(found).value;
      Replace(found, found[p..e], w) == found[..p] + Substitute(w, found[p..e], found[..p], found[e..]) + found[e..]
  {
    var (p, e) := Exec(found).value;
    MatchIsFirstOccurrence(found, p, e);
    assert p + |found[p..e]| == e;
  }

  /** Replacing a whole string by itself as pattern leaves only the substitution. */
  lemma ReplaceWhole(found: string, w: string)
    ensures Replace(found, found, w) == Substitute(w, found, [], [])
  {
    assert FirstOccurrence(found, found, 0);
    assert found[..0] == [] && found[|found|..] == [];
  }

  /**
   * `replaceDynamicString`: the text of the first `%…%` match (or, without a
   * match, the whole translation) is replaced by the first word of the fallback.
   * A match is at least two characters long, so `match[0] || foundTranslation`
   * picks the match whenever there is one. With a match only that segment
   * changes: the text before and after it is kept.
   */
  function ReplaceDynamicString(foundTranslation: string, fallback: string): (r: string)
    ensures Exec(foundTranslation).Some? ==>
      var (p, e) := Exec(foundTranslation).value;
      && p < e <= |foundTranslation|
      && r == foundTranslation[..p]
              + Substitute(FirstWord(fallback), foundTranslation[p..e], foundTranslation[..p], foundTranslation[e..])
              + foundTranslation[e..]
    ensures Exec(foundTranslation).None? ==> r == Substitute(FirstWord(fallback), foundTranslation, [], [])
  {
    match Exec(foundTranslation)
    case Some(m) =>
      ReplaceAtMatch(foundTranslation, FirstWord(fallback));
      Replace(foundTranslation, foundTranslation[m.0..m.1], FirstWord(fallback))
    case None =>
      ReplaceWhole(foundTranslation, FirstWord(fallback));
      Replace(foundTranslation, foundTranslation, FirstWord(fallback))
  }

  /** Without `$` in the fallback, the matched segment becomes exactly the fallback's first word. */
  lemma ReplacesFirstSegmentLiterally(found: string, fallback: string)
    requires Exec(found).Some?
    requires '$' !in fallback
    ensures var (p, e) := Exec(found).value;
      && p < e <= |found|
      && ReplaceDynamicString(found, fallback) == found[..p] + FirstWord(fallback) + found[e..]
  {
    var (p, e) := Exec(found).value;
    var w := FirstWord(fallback);
    assert '$' !in w by {
      forall t | 0 <= t < |w| ensures w[t] != '$' {
        assert w[t] == fallback[t];
      }
    }
  }

  /** A translation with a single `%` has no match, so the result is the first word of the fallback. */
  lemma SinglePercentGivesFirstWord(found: string, fallback: string)
    requires forall i, j :: 0 <= i < j < |found| ==> !(found[i] == '%' && found[j] == '%')
    requires '$' !in fallback
    ensures ReplaceDynamicString(found, fallback) == FirstWord(fallback)
  {
    if Exec(found).Some? {
      assert false;
    }
    var w := FirstWord(fallback);
    assert '$' !in w by {
      forall t | 0 <= t < |w| ensures w[t] != '$' {
        assert w[t] == fallback[t];
      }
    }
  }

  /** Without line terminators the lazy part always reaches the next `%`, if there is one. */
  lemma {:induction false} ClosingPercentFound(s: string, k: nat, j: nat)
    requires k <= j < |s| && s[j] == '%'
    requires forall m :: k <= m < j ==> !IsLineTerminator(s[m])
    ensures ClosingPercent(s, k).Some?
    decreases j - k
  {
    if s[k] != '%' {
      ClosingPercentFound(s, k + 1, j);
    }
  }

  /**
   * In a translation without line terminators, the match starts at the first `%`
   * and ends at the next `%`.
   */
  lemma MatchIsFirstPercentPair(found: string)
    requires forall m :: 0 <= m < |found| ==> !IsLineTerminator(found[m])
    requires Exec(found).Some?
    ensures var (p, e) := Exec(found).value;
      && (forall q :: 0 <= q < p ==> found[q] != '%')
      && found[p] == '%' && found[e - 1] == '%'
      && (forall q :: p < q < e - 1 ==> found[q] != '%')
  {
    var (p, e) := Exec(found).value;
    forall q | 0 <= q < p ensures found[q] != '%' {
      if found[q] == '%' {
        ClosingPercentFound(found, q + 1, p);
        var c := ClosingPercent(found, q + 1).value;
        assert MatchAt(found, q, c + 1);
      }
    }
  }

  /**
   * `getTranslation`: a missing or empty translation gives the fallback; a
   * translation with `%`, looked up by a text that does not contain `1%`, has its
   * first placeholder filled from the fallback; any other translation is returned as is.
   */
  function GetTranslation(translations: map<string, string>, text: string, fallback: string): (r: string)
    ensures !(text in translations && translations[text] != "") ==> r == fallback
    ensures text in translations && translations[text] != "" && '%' !in translations[text]
            ==> r == translations[text]
    ensures text in translations && translations[text] != "" && Includes(text, "1%")
            ==> r == translations[text]
    ensures (text in translations && translations[text] != "" && '%' in translations[text]
             && !Includes(text, "1%")) ==> r == ReplaceDynamicString(translations[text], fallback)
  {
    if text in translations && translations[text] != "" then
      var translatedString := translations[text];
      IncludesChar(translatedString, '%');
      var includesVariable := Includes(translatedString, "%");
      if includesVariable && !Includes(text, "1%") then
        ReplaceDynamicString(translatedString, fallback)
      else
        translatedString
    else
      fallback
  }

  /**
   * `TranslateString` with the translations of the context passed in: the
   * marker `'error'` at index 0 selects the fallback, otherwise `getTranslation`
   * decides.
   */
  function TranslateString(translations: map<string, string>, text: string, fallback: string): (r: string)
    ensures "0" in translations && translations["0"] == "error" ==> r == fallback
    ensures !("0" in translations && translations["0"] == "error")
            ==> r == GetTranslation(translations, text, fallback)
  {
    if "0" in translations && translations["0"] == "error" then fallback
    else GetTranslation(translations, text, fallback)
  }
}
