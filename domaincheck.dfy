/**
 * A syntax checker for DNS-style host names, as used to vet certificate
 * subject names: Valid decides whether a name is acceptable (optionally
 * behind one leading "*." wildcard marker), ValidWildcard whether it is an
 * acceptable wildcard name, StemDomain strips the marker, and PunycodeName
 * converts the stem to its ASCII-compatible form and puts the marker back.
 */
module DomainCheck {
  import opened Wrappers
  import opened Text

  /**
   * The calls the checker makes into code outside this model, passed in as
   * values: isPrint is unicode.IsPrint; parseIP(s) holds when net.ParseIP(s)
   * returns an address (not nil); toASCII is idna.ToASCII, with None
   * standing for a non-nil error.
   */
  datatype Library = Library(
    isPrint: char -> bool,
    parseIP: string -> bool,
    toASCII: string -> Option<string>)

  /** The special characters that may not appear once "*." is stripped. */
  const Forbidden: string := "_~`!@#$%^&*()=+{}[]|\\;:'\",<>/?"

  /** The wildcard marker. */
  const Wildcard: string := "*."

  /** The test len(domain) >= 2 && domain[:2] == "*.". */
  predicate HasWildcardPrefix(d: string)
  {
    |d| >= 2 && d[..2] == Wildcard
  }

  /** The name with at most one leading "*." removed. */
  function StripWildcard(d: string): (s: string)
    ensures d == s || d == Wildcard + s
    ensures |s| < |d| <==> HasWildcardPrefix(d)
  {
    if HasWildcardPrefix(d) then d[2..] else d
  }

  /** One dot-separated token passes the per-token checks of Valid. */
  predicate LabelOK(t: string)
  {
    !HasEdgeSpace(t) && |t| != 0 && t[0] != '-' && t[|t| - 1] != '-'
  }

  /** The checks Valid applies to the name once "*." is stripped. */
  predicate StemOK(lib: Library, s: string)
  {
    !ContainsAny(s, Forbidden)
    && ' ' !in s
    && |Split(s, '.')| >= 2
    && (forall t <- Split(s, '.') :: LabelOK(t))
    && (forall c <- s :: lib.isPrint(c))
  }

  /** The verdict of Valid, as a predicate over the whole input. */
  predicate IsValidDomain(lib: Library, d: string)
  {
    !HasEdgeSpace(d) && !lib.parseIP(d) && StemOK(lib, StripWildcard(d))
  }

  /**
   * The token loop of Valid: every token passes the per-token checks; the
   * first token that fails stops the scan.
   */
  method CheckLabels(tokens: seq<string>) returns (ok: bool)
    ensures ok == forall t <- tokens :: LabelOK(t)
  {
    for i := 0 to |tokens|
      invariant forall j :: 0 <= j < i ==> LabelOK(tokens[j])
    {
      var token := tokens[i];
      assert token in tokens;
      var trimmed := TrimSpace(token);
      if |trimmed| < |token| {
        return false;
      }
      if |token| == 0 {
        return false;
      }
      if token[0] == '-' || token[|token| - 1] == '-' {
        return false;
      }
    }
    return true;
  }

  /** The character loop of Valid: every character is printable. */
  method CheckPrintable(lib: Library, s: string) returns (ok: bool)
    ensures ok == forall c <- s :: lib.isPrint(c)
  {
    for i := 0 to |s|
      invariant forall j :: 0 <= j < i ==> lib.isPrint(s[j])
    {
      if !lib.isPrint(s[i]) {
        assert s[i] in s;
        return false;
      }
    }
    return true;
  }

  /**
   * Valid: the checks run in order, each rejection returning at once; the
   * answer is the verdict IsValidDomain.
   */
  method Valid(lib: Library, domain: string) returns (ok: bool)
    ensures ok == IsValidDomain(lib, domain)
  {
    var trimmed := TrimSpace(domain);
    if |trimmed| < |domain| {
      assert HasEdgeSpace(domain);
      return false;
    }
    if lib.parseIP(domain) {
      return false;
    }
    var d := StripWildcard(domain);
    assert IsValidDomain(lib, domain) <==> StemOK(lib, d);
    if ContainsAny(d, Forbidden) {
      return false;
    }
    if ' ' in d {
      return false;
    }
    var tokens := Split(d, '.');
    if |tokens| < 2 {
      return false;
    }
    ok := CheckLabels(tokens);
    if !ok {
      return false;
    }
    ok := CheckPrintable(lib, d);
  }

  // ---------------------------------------------------------------------
  // The verdict without labels: a character-by-character reading

  /** A character that may begin or end a label. */
  predicate LabelEdge(c: char)
  {
    c != '.' && c != '-' && !IsSpace(c)
  }

  /** A dot at position i lies strictly inside s, between two label edges. */
  predicate DotFlanked(s: string, i: nat)
    requires i < |s|
  {
    s[i] == '.' ==> 0 < i < |s| - 1 && LabelEdge(s[i - 1]) && LabelEdge(s[i + 1])
  }

  /**
   * Cut at its dots, s falls into non-empty labels none of which begins or
   * ends with a dash or white space.
   */
  predicate WellDotted(s: string)
  {
    |s| > 0 && LabelEdge(s[0]) && LabelEdge(s[|s| - 1])
    && forall i :: 0 <= i < |s| ==> DotFlanked(s, i)
  }

  /** For a dot-free token, the per-token checks only look at its two ends. */
  lemma LabelOKEdges(t: string)
    requires '.' !in t
    ensures LabelOK(t) <==> |t| > 0 && LabelEdge(t[0]) && LabelEdge(t[|t| - 1])
  {
    if |t| > 0 {
      assert t[0] in t && t[|t| - 1] in t;
    }
  }

  /** A dot-free s is well dotted exactly when it is one good label. */
  lemma WellDottedSingle(s: string)
    requires '.' !in s
    ensures WellDotted(s) <==> |s| > 0 && LabelEdge(s[0]) && LabelEdge(s[|s| - 1])
  {
    forall i | 0 <= i < |s|
      ensures DotFlanked(s, i)
    {
      assert s[i] in s;
    }
  }

  /** Prepending a good label and a dot keeps a string well dotted, and only then. */
  lemma WellDottedCons(a: string, rest: string)
    requires '.' !in a
    ensures WellDotted(a + ['.'] + rest)
        <==> |a| > 0 && LabelEdge(a[0]) && LabelEdge(a[|a| - 1]) && WellDotted(rest)
  {
    var s := a + ['.'] + rest;
    var n := |a|;
    assert s[n] == '.';
    if |a| > 0 && LabelEdge(a[0]) && LabelEdge(a[|a| - 1]) && WellDotted(rest) {
      forall j | 0 <= j < |s|
        ensures DotFlanked(s, j)
      {
        if j < n {
          assert s[j] == a[j] && a[j] in a;
        } else if j > n {
          var k := j - n - 1;
          assert s[j] == rest[k];
          if s[j] == '.' {
            assert DotFlanked(rest, k);
            assert s[j - 1] == rest[k - 1] && s[j + 1] == rest[k + 1];
          }
        }
      }
    }
    if WellDotted(s) {
      assert DotFlanked(s, n);
      assert a[0] == s[0] && a[n - 1] == s[n - 1] && rest[0] == s[n + 1];
      assert rest[|rest| - 1] == s[|s| - 1];
      forall k | 0 <= k < |rest|
        ensures DotFlanked(rest, k)
      {
        var j := k + n + 1;
        assert s[j] == rest[k];
        if rest[k] == '.' {
          assert DotFlanked(s, j);
          assert s[j - 1] == rest[k - 1] && s[j + 1] == rest[k + 1];
        }
      }
    }
  }

  /**
   * Every token Split produces passes the per-token checks exactly when the
   * string is well dotted.
   */
  lemma {:induction false} LabelsWellDotted(s: string)
    ensures (forall t <- Split(s, '.') :: LabelOK(t)) <==> WellDotted(s)
    decreases |s|
  {
    if '.' !in s {
      assert Split(s, '.') == [s];
      LabelOKEdges(s);
      WellDottedSingle(s);
    } else {
      var i := IndexOf(s, '.');
      var a, rest := s[..i], s[i + 1..];
      assert Split(s, '.') == [a] + Split(rest, '.');
      assert s == a + ['.'] + rest;
      LabelOKEdges(a);
      LabelsWellDotted(rest);
      WellDottedCons(a, rest);
    }
  }

  /**
   * Valid's verdict stated over characters alone: no white space at either
   * end, not an IP literal, and after stripping "*." only allowed printable
   * characters, at least one dot, and every dot and both ends flanked by
   * characters that may begin or end a label.
   */
  predicate ValidByCharacters(lib: Library, d: string)
  {
    var s := StripWildcard(d);
    !HasEdgeSpace(d) && !lib.parseIP(d)
    && (forall c <- s :: c !in Forbidden && c != ' ' && lib.isPrint(c))
    && '.' in s && WellDotted(s)
  }

  /** The character-level reading and Valid's verdict agree on every input. */
  lemma ValidByCharactersAgrees(lib: Library, d: string)
    ensures IsValidDomain(lib, d) <==> ValidByCharacters(lib, d)
  {
    LabelsWellDotted(StripWildcard(d));
  }

  /**
   * What every accepted name looks like: no white space at either end, not
   * an IP literal, and a remainder after "*." of at least three characters
   * with no forbidden character and no space, splitting into at least two
   * non-empty labels none of which begins or ends with a dash or white space.
   */
  lemma AcceptedShape(lib: Library, d: string)
    requires IsValidDomain(lib, d)
    ensures !HasEdgeSpace(d) && !lib.parseIP(d)
    ensures forall c <- StripWildcard(d) :: c !in Forbidden && c != ' ' && lib.isPrint(c)
    ensures |Split(StripWildcard(d), '.')| >= 2
    ensures forall t <- Split(StripWildcard(d), '.') ::
              |t| > 0 && t[0] != '-' && t[|t| - 1] != '-' && !IsSpace(t[0]) && !IsSpace(t[|t| - 1])
    ensures WellDotted(StripWildcard(d))
    ensures |StripWildcard(d)| >= 3 && |d| >= 3
  {
    var s := StripWildcard(d);
    ValidByCharactersAgrees(lib, d);
    var i :| 0 <= i < |s| && s[i] == '.';
    assert DotFlanked(s, i);
  }

  // ---------------------------------------------------------------------
  // The operations layered on the verdict

  /**
   * ValidWildcard: a valid name whose first two characters are "*.". An
   * accepted name has at least three characters, so reading the first two
   * needs no length test; a valid wildcard name has at least five, and no
   * further '*' after the marker.
   */
  predicate ValidWildcard(lib: Library, d: string)
    ensures ValidWildcard(lib, d) <==> IsValidDomain(lib, d) && HasWildcardPrefix(d)
    ensures ValidWildcard(lib, d) ==> |d| >= 5 && '*' !in d[2..] && d == Wildcard + d[2..]
  {
    IsValidDomain(lib, d) && (AcceptedShape(lib, d); assert '*' in Forbidden; d[..2] == Wildcard)
  }

  /**
   * StemDomain: the name without its wildcard marker, or the empty string
   * when the name is not valid.
   */
  function StemDomain(lib: Library, d: string): (r: string)
    ensures r == [] <==> !IsValidDomain(lib, d)
    ensures |r| <= |d| && r == d[|d| - |r|..]
    ensures '*' !in r
    ensures ValidWildcard(lib, d) ==> d == Wildcard + r
    ensures IsValidDomain(lib, d) && !ValidWildcard(lib, d) ==> r == d
    ensures IsValidDomain(lib, d) ==> r == StripWildcard(d)
  {
    if ValidWildcard(lib, d) then
      d[2..]
    else if IsValidDomain(lib, d) then
      (AcceptedShape(lib, d); assert '*' in Forbidden; d)
    else
      []
  }

  /** The stem of any name never carries a wildcard marker. */
  lemma StemHasNoWildcard(lib: Library, d: string)
    ensures !HasWildcardPrefix(StemDomain(lib, d)) && !ValidWildcard(lib, StemDomain(lib, d))
  {
    var r := StemDomain(lib, d);
    if |r| >= 2 {
      assert r[0] in r;
    }
  }

  /**
   * Stemming a stem changes nothing, except when a valid name's stem is an
   * IP literal: a wildcard name is checked for being an IP literal as a
   * whole, so its stem alone may be one, and that stem is then not valid.
   */
  lemma StemIdempotent(lib: Library, d: string)
    ensures StemDomain(lib, StemDomain(lib, d)) == StemDomain(lib, d)
        <==> !(IsValidDomain(lib, d) && lib.parseIP(StemDomain(lib, d)))
  {
    var s := StemDomain(lib, d);
    StemHasNoWildcard(lib, d);
    if IsValidDomain(lib, d) {
      AcceptedShape(lib, d);
      assert s == StripWildcard(d) && StripWildcard(s) == s;
      if !lib.parseIP(s) {
        assert s[0] == StripWildcard(d)[0] && s[|s| - 1] == StripWildcard(d)[|s| - 1];
        assert !HasEdgeSpace(s);
        assert IsValidDomain(lib, s);
      }
    } else {
      assert Split(s, '.') == [s];
      assert !IsValidDomain(lib, s);
    }
  }

  /**
   * PunycodeName: the stem converted by the ASCII-compatible encoding, with
   * "*." put back in front for a valid wildcard name; the empty string when
   * the conversion fails. The stem is converted even when it is empty.
   */
  function PunycodeName(lib: Library, d: string): (r: string)
    ensures lib.toASCII(StemDomain(lib, d)).None? ==> r == []
    ensures r == [] <==> lib.toASCII(StemDomain(lib, d)) in {None, Some([])}
    ensures r != [] && ValidWildcard(lib, d) ==>
              r == Wildcard + lib.toASCII(StemDomain(lib, d)).value
    ensures r != [] && !ValidWildcard(lib, d) ==> Some(r) == lib.toASCII(StemDomain(lib, d))
  {
    var stem := StemDomain(lib, d);
    match lib.toASCII(stem)
    case None => []
    case Some(puny) =>
      if puny != [] && ValidWildcard(lib, d) then Wildcard + puny else puny
  }

  /**
   * An invalid name still reaches the conversion, with the empty stem: its
   * result is whatever the conversion makes of the empty string.
   */
  lemma PunycodeOfInvalid(lib: Library, d: string)
    requires !IsValidDomain(lib, d)
    ensures PunycodeName(lib, d) == (match lib.toASCII([]) case None => [] case Some(p) => p)
    ensures lib.toASCII([]) in {None, Some([])} ==> PunycodeName(lib, d) == []
  {
  }

  /**
   * When the conversion leaves an already-ASCII stem unchanged, PunycodeName
   * gives back the name itself, marker included.
   */
  lemma PunycodeIdentity(lib: Library, d: string)
    requires IsValidDomain(lib, d)
    requires lib.toASCII(StemDomain(lib, d)) == Some(StemDomain(lib, d))
    ensures PunycodeName(lib, d) == d
  {
  }

  // ---------------------------------------------------------------------
  // What the foreign calls are known to do

  /** unicode.IsPrint holds of every printable ASCII character, space included. */
  ghost predicate PrintsAscii(lib: Library)
  {
    forall c: char :: ' ' <= c <= '~' ==> lib.isPrint(c)
  }

  /** Only digits and dots: the shape of a dotted IPv4 literal. */
  predicate DigitsAndDots(s: string)
  {
    forall c <- s :: c == '.' || '0' <= c <= '9'
  }

  /**
   * net.ParseIP accepts dotted IPv4 literals, made of digits and dots, and
   * IPv6 literals, which always hold a colon; nothing else parses.
   */
  ghost predicate IPLiteralShape(lib: Library)
  {
    forall s: string :: lib.parseIP(s) ==> ':' in s || DigitsAndDots(s)
  }

  /**
   * The IP-literal test only decides the verdict for names made of digits
   * and dots: any other IP literal holds a colon, which the forbidden set
   * rejects anyway.
   */
  lemma IPCheckOnlyForDottedDigits(lib: Library, d: string)
    requires IPLiteralShape(lib)
    requires !DigitsAndDots(d)
    ensures IsValidDomain(lib, d) <==> !HasEdgeSpace(d) && StemOK(lib, StripWildcard(d))
  {
    if lib.parseIP(d) {
      var s := StripWildcard(d);
      var i :| 0 <= i < |d| && d[i] == ':';
      if d == Wildcard + s {
        assert d[0] == '*' && d[1] == '.';
        assert s[i - 2] == ':';
        assert s[i - 2] in s;
      } else {
        assert s[i] in s;
      }
      assert ':' in Forbidden;
    }
  }
}
