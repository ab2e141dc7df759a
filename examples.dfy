/**
 * The accept and reject lists of the package's own tests, as lemmas over
 * the model: rejections hold whatever the foreign calls do, acceptances
 * need the ASCII facts about unicode.IsPrint and net.ParseIP.
 */
module DomainCheckExamples {
  import opened Wrappers
  import opened Text
  import opened DomainCheck

  /** Joining two labels puts one dot between them. */
  lemma Join2(a: string, b: string)
    ensures Join([a, b], '.') == a + "." + b
  {
    assert [a, b][1..] == [b];
  }

  lemma Join3(a: string, b: string, c: string)
    ensures Join([a, b, c], '.') == a + "." + b + "." + c
  {
    assert [a, b, c][1..] == [b, c];
    Join2(b, c);
  }

  lemma Join4(a: string, b: string, c: string, e: string)
    ensures Join([a, b, c, e], '.') == a + "." + b + "." + c + "." + e
  {
    assert [a, b, c, e][1..] == [b, c, e];
    Join3(b, c, e);
  }

  /** Joining two to four labels puts one dot between neighbours. */
  lemma JoinSmall(labels: seq<string>)
    requires 2 <= |labels| <= 4
    ensures |labels| == 2 ==> Join(labels, '.') == labels[0] + "." + labels[1]
    ensures |labels| == 3 ==> Join(labels, '.') == labels[0] + "." + labels[1] + "." + labels[2]
    ensures |labels| == 4 ==>
      Join(labels, '.') == labels[0] + "." + labels[1] + "." + labels[2] + "." + labels[3]
  {
    if |labels| == 2 {
      assert labels == [labels[0], labels[1]];
      Join2(labels[0], labels[1]);
    } else if |labels| == 3 {
      assert labels == [labels[0], labels[1], labels[2]];
      Join3(labels[0], labels[1], labels[2]);
    } else {
      assert labels == [labels[0], labels[1], labels[2], labels[3]];
      Join4(labels[0], labels[1], labels[2], labels[3]);
    }
  }

  /**
   * Lower-case ASCII letters, digits, dashes, and printable non-ASCII
   * characters that are not white space.
   */
  predicate HostLabel(lib: Library, t: string)
  {
    forall c <- t :: HostChar(lib, c)
  }

  predicate HostChar(lib: Library, c: char)
  {
    'a' <= c <= 'z' || '0' <= c <= '9' || c == '-' || ('~' < c && !IsSpace(c) && lib.isPrint(c))
  }

  /** Every character of a join is the separator or a character of some part. */
  lemma {:induction false} JoinChars(labels: seq<string>, sep: char, c: char)
    requires c in Join(labels, sep)
    ensures c == sep || exists t <- labels :: c in t
  {
    if |labels| > 1 {
      var rest := Join(labels[1..], sep);
      assert Join(labels, sep) == labels[0] + [sep] + rest;
      if c in rest && c != sep {
        JoinChars(labels[1..], sep, c);
        var t :| t in labels[1..] && c in t;
        assert t in labels;
      }
    }
  }

  /**
   * A name built from host-character labels has no colon and no white
   * space at either end.
   */
  lemma HostNameChars(lib: Library, d: string, labels: seq<string>)
    requires forall t <- labels :: HostLabel(lib, t)
    requires d == Join(labels, '.') || d == Wildcard + Join(labels, '.')
    ensures ':' !in d && !HasEdgeSpace(d)
  {
    var s := Join(labels, '.');
    forall c | c in d
      ensures c == '*' || c == '.' || HostChar(lib, c)
    {
      if c in s {
        JoinChars(labels, '.', c);
        if c != '.' {
          var t :| t in labels && c in t;
          assert HostLabel(lib, t);
        }
      }
    }
    if |d| > 0 {
      assert d[0] in d && d[|d| - 1] in d;
    }
  }

  /** A name holding something other than a digit or a dot, and no colon, is no IP literal. */
  lemma NotIPLiteral(lib: Library, d: string, i: nat)
    requires IPLiteralShape(lib)
    requires i < |d| && !('0' <= d[i] <= '9') && d[i] != '.' && ':' !in d
    ensures !lib.parseIP(d)
  {
    assert d[i] in d;
  }

  /** Every forbidden character is ASCII punctuation other than '-' and '.'. */
  lemma ForbiddenPunctuation(c: char)
    requires c in Forbidden
    ensures ' ' < c <= '~' && !('a' <= c <= 'z') && !('0' <= c <= '9') && c != '-' && c != '.'
  {
  }

  /** A dot or a label character is printable and not forbidden. */
  lemma HostCharAllowed(lib: Library, c: char)
    requires PrintsAscii(lib)
    requires c == '.' || HostChar(lib, c)
    ensures c !in Forbidden && c != ' ' && lib.isPrint(c)
  {
    if c in Forbidden {
      ForbiddenPunctuation(c);
    }
  }

  /** Good dot-free labels joined with dots form a well-dotted string. */
  lemma {:induction false} JoinWellDotted(labels: seq<string>)
    requires |labels| >= 1
    requires forall t <- labels :: '.' !in t && LabelOK(t)
    ensures WellDotted(Join(labels, '.'))
  {
    var a := labels[0];
    assert a in labels;
    LabelOKEdges(a);
    if |labels| == 1 {
      WellDottedSingle(a);
    } else {
      var rest := Join(labels[1..], '.');
      assert forall t <- labels[1..] :: t in labels;
      JoinWellDotted(labels[1..]);
      WellDottedCons(a, rest);
      assert Join(labels, '.') == a + ['.'] + rest;
    }
  }

  /** Host-character labels hold no dot. */
  lemma HostLabelsDotFree(lib: Library, labels: seq<string>)
    requires forall t <- labels :: HostLabel(lib, t)
    ensures forall t <- labels :: '.' !in t
  {
    forall t | t in labels
      ensures '.' !in t
    {
      assert HostLabel(lib, t);
    }
  }

  /** Every character of a join of host-character labels is allowed and printable. */
  lemma JoinedHostChars(lib: Library, labels: seq<string>)
    requires PrintsAscii(lib)
    requires forall t <- labels :: HostLabel(lib, t)
    ensures forall c <- Join(labels, '.') :: c !in Forbidden && c != ' ' && lib.isPrint(c)
  {
    forall c | c in Join(labels, '.')
      ensures c !in Forbidden && c != ' ' && lib.isPrint(c)
    {
      JoinChars(labels, '.', c);
      if c != '.' {
        var t :| t in labels && c in t;
        assert HostLabel(lib, t);
      }
      HostCharAllowed(lib, c);
    }
  }

  /**
   * A name that begins with '*' or a letter and whose stem joins at least
   * two good host-character labels is accepted.
   */
  lemma AcceptedByLabels(lib: Library, d: string, labels: seq<string>)
    requires PrintsAscii(lib) && IPLiteralShape(lib)
    requires |labels| >= 2 && forall t <- labels :: HostLabel(lib, t) && LabelOK(t)
    requires d == Join(labels, '.') || d == Wildcard + Join(labels, '.')
    requires StripWildcard(d) == Join(labels, '.')
    requires |d| > 0 && (d[0] == '*' || 'a' <= d[0] <= 'z')
    ensures IsValidDomain(lib, d)
  {
    var s := Join(labels, '.');
    HostLabelsDotFree(lib, labels);
    JoinedHostChars(lib, labels);
    JoinWellDotted(labels);
    assert s == labels[0] + ['.'] + Join(labels[1..], '.');
    assert s[|labels[0]|] == '.';
    HostNameChars(lib, d, labels);
    NotIPLiteral(lib, d, 0);
    assert ValidByCharacters(lib, d);
    ValidByCharactersAgrees(lib, d);
  }

  /** Each label the accepted examples use passes the per-token checks. */
  lemma GoodLabelExample(lib: Library)
    requires PrintsAscii(lib)
    ensures HostLabel(lib, "example") && LabelOK("example")
  {
  }

  lemma GoodLabelCom(lib: Library)
    requires PrintsAscii(lib)
    ensures HostLabel(lib, "com") && LabelOK("com")
  {
  }

  lemma GoodLabelGood(lib: Library)
    requires PrintsAscii(lib)
    ensures HostLabel(lib, "good") && LabelOK("good")
  {
  }

  lemma GoodLabelWww(lib: Library)
    requires PrintsAscii(lib)
    ensures HostLabel(lib, "www") && LabelOK("www")
  {
  }

  lemma GoodLabelGoodExample(lib: Library)
    requires PrintsAscii(lib)
    ensures HostLabel(lib, "good-example") && LabelOK("good-example")
  {
  }

  lemma GoodLabelXnRgerKoa(lib: Library)
    requires PrintsAscii(lib)
    ensures HostLabel(lib, "xn--rger-koa") && LabelOK("xn--rger-koa")
  {
  }

  lemma AcceptsExampleCom(lib: Library)
    requires PrintsAscii(lib) && IPLiteralShape(lib)
    ensures IsValidDomain(lib, "example.com")
  {
    var labels := ["example", "com"];
    GoodLabelExample(lib);
    GoodLabelCom(lib);
    JoinSmall(labels);
    assert Join(labels, '.') == "example.com";
    StripUnmarked("example.com");
    AcceptedByLabels(lib, "example.com", labels);
  }

  lemma AcceptsGoodExampleCom(lib: Library)
    requires PrintsAscii(lib) && IPLiteralShape(lib)
    ensures IsValidDomain(lib, "good.example.com")
  {
    var labels := ["good", "example", "com"];
    GoodLabelGood(lib);
    GoodLabelExample(lib);
    GoodLabelCom(lib);
    JoinSmall(labels);
    assert Join(labels, '.') == "good.example.com";
    StripUnmarked("good.example.com");
    AcceptedByLabels(lib, "good.example.com", labels);
  }

  lemma AcceptsWildGoodExampleCom(lib: Library)
    requires PrintsAscii(lib) && IPLiteralShape(lib)
    ensures IsValidDomain(lib, "*.good.example.com")
  {
    var labels := ["good", "example", "com"];
    GoodLabelGood(lib);
    GoodLabelExample(lib);
    GoodLabelCom(lib);
    JoinSmall(labels);
    assert Join(labels, '.') == "good.example.com";
    assert "*.good.example.com" == Wildcard + "good.example.com";
    StripMarked("good.example.com");
    AcceptedByLabels(lib, "*.good.example.com", labels);
  }

  lemma AcceptsWildGoodDashExampleCom(lib: Library)
    requires PrintsAscii(lib) && IPLiteralShape(lib)
    ensures IsValidDomain(lib, "*.good-example.com")
  {
    var labels := ["good-example", "com"];
    GoodLabelGoodExample(lib);
    GoodLabelCom(lib);
    JoinSmall(labels);
    assert Join(labels, '.') == "good-example.com";
    assert "*.good-example.com" == Wildcard + "good-example.com";
    StripMarked("good-example.com");
    AcceptedByLabels(lib, "*.good-example.com", labels);
  }

  lemma AcceptsWwwExampleCom(lib: Library)
    requires PrintsAscii(lib) && IPLiteralShape(lib)
    ensures IsValidDomain(lib, "www.example.com")
  {
    var labels := ["www", "example", "com"];
    GoodLabelWww(lib);
    GoodLabelExample(lib);
    GoodLabelCom(lib);
    JoinSmall(labels);
    assert Join(labels, '.') == "www.example.com";
    StripUnmarked("www.example.com");
    AcceptedByLabels(lib, "www.example.com", labels);
  }

  lemma AcceptsWildPunycodeLabel(lib: Library)
    requires PrintsAscii(lib) && IPLiteralShape(lib)
    ensures IsValidDomain(lib, "*.xn--rger-koa.example.com")
  {
    var labels := ["xn--rger-koa", "example", "com"];
    GoodLabelXnRgerKoa(lib);
    GoodLabelExample(lib);
    GoodLabelCom(lib);
    JoinSmall(labels);
    assert Join(labels, '.') == "xn--rger-koa.example.com";
    assert "*.xn--rger-koa.example.com" == Wildcard + "xn--rger-koa.example.com";
    StripMarked("xn--rger-koa.example.com");
    AcceptedByLabels(lib, "*.xn--rger-koa.example.com", labels);
  }

  /** The names the package's tests expect to be accepted. */
  lemma ValidNamesAccepted(lib: Library)
    requires PrintsAscii(lib) && IPLiteralShape(lib)
    ensures IsValidDomain(lib, "example.com")
    ensures IsValidDomain(lib, "good.example.com")
    ensures IsValidDomain(lib, "*.good.example.com")
    ensures IsValidDomain(lib, "*.good-example.com")
    ensures IsValidDomain(lib, "www.example.com")
    ensures IsValidDomain(lib, "*.xn--rger-koa.example.com")
  {
    AcceptsExampleCom(lib);
    AcceptsGoodExampleCom(lib);
    AcceptsWildGoodExampleCom(lib);
    AcceptsWildGoodDashExampleCom(lib);
    AcceptsWwwExampleCom(lib);
    AcceptsWildPunycodeLabel(lib);
  }

  /** The stem of a marked name is what follows the marker. */
  lemma StripMarked(s: string)
    ensures StripWildcard(Wildcard + s) == s
  {
    assert (Wildcard + s)[..2] == Wildcard;
  }

  /** A name not starting with "*." is its own stem. */
  lemma StripUnmarked(d: string)
    requires |d| < 2 || d[0] != '*' || d[1] != '.'
    ensures StripWildcard(d) == d
  {
    if |d| >= 2 {
      assert d[..2][0] == d[0] && d[..2][1] == d[1];
    }
  }

  /** A forbidden character in the stem rejects the name. */
  lemma RejectedByForbidden(lib: Library, d: string, i: nat)
    requires i < |StripWildcard(d)| && StripWildcard(d)[i] in Forbidden
    ensures !IsValidDomain(lib, d)
  {
    assert StripWildcard(d)[i] in StripWildcard(d);
  }

  /** A stem without a dot is a single label, which rejects the name. */
  lemma RejectedBySingleLabel(lib: Library, d: string)
    requires '.' !in StripWildcard(d)
    ensures !IsValidDomain(lib, d)
  {
  }

  /** A stem that is not well dotted has a bad label, which rejects the name. */
  lemma RejectedByLabels(lib: Library, d: string)
    requires !WellDotted(StripWildcard(d))
    ensures !IsValidDomain(lib, d)
  {
    ValidByCharactersAgrees(lib, d);
  }

  lemma RejectsEmpty(lib: Library)
    ensures !IsValidDomain(lib, "")
  {
    StripUnmarked("");
    RejectedBySingleLabel(lib, "");
  }

  lemma RejectsLoneDot(lib: Library)
    ensures !IsValidDomain(lib, ".")
  {
    StripUnmarked(".");
    RejectedByLabels(lib, ".");
  }

  lemma RejectsBareMarker(lib: Library)
    ensures !IsValidDomain(lib, "*.")
  {
    StripMarked("");
    RejectedByLabels(lib, "*.");
  }

  lemma RejectsAt(lib: Library)
    ensures !IsValidDomain(lib, "@")
  {
    StripUnmarked("@");
    RejectedByForbidden(lib, "@", 0);
  }

  lemma RejectsStar(lib: Library)
    ensures !IsValidDomain(lib, "*")
  {
    StripUnmarked("*");
    RejectedByForbidden(lib, "*", 0);
  }

  lemma RejectsTrailingAt(lib: Library)
    ensures !IsValidDomain(lib, "a@")
  {
    StripUnmarked("a@");
    RejectedByForbidden(lib, "a@", 1);
  }

  lemma RejectsLeadingAt(lib: Library)
    ensures !IsValidDomain(lib, "@a")
  {
    StripUnmarked("@a");
    RejectedByForbidden(lib, "@a", 0);
  }

  lemma RejectsTrailingStar(lib: Library)
    ensures !IsValidDomain(lib, "a.*")
  {
    StripUnmarked("a.*");
    RejectedByForbidden(lib, "a.*", 2);
  }

  lemma RejectsWildSingleLabel(lib: Library)
    ensures !IsValidDomain(lib, "*.a")
  {
    StripMarked("a");
    RejectedBySingleLabel(lib, "*.a");
  }

  lemma RejectsWildDots(lib: Library)
    ensures !IsValidDomain(lib, "*..")
  {
    StripMarked(".");
    RejectedByLabels(lib, "*..");
  }

  lemma RejectsWildTopLevel(lib: Library)
    ensures !IsValidDomain(lib, "*.com")
  {
    StripMarked("com");
    RejectedBySingleLabel(lib, "*.com");
  }

  lemma RejectsDoubleWildcard(lib: Library)
    ensures !IsValidDomain(lib, "*.*.example.com")
  {
    StripMarked("*.example.com");
    RejectedByForbidden(lib, "*.*.example.com", 0);
  }

  lemma RejectsInnerWildcard(lib: Library)
    ensures !IsValidDomain(lib, "bad.*.example.com")
  {
    StripUnmarked("bad.*.example.com");
    RejectedByForbidden(lib, "bad.*.example.com", 4);
  }

  lemma RejectsWildLeadingDash(lib: Library)
    ensures !IsValidDomain(lib, "*.-bad-example.com")
  {
    StripMarked("-bad-example.com");
    RejectedByLabels(lib, "*.-bad-example.com");
  }

  lemma RejectsWildTrailingDash(lib: Library)
    ensures !IsValidDomain(lib, "*.bad-example-.too")
  {
    StripMarked("bad-example-.too");
    assert !DotFlanked("bad-example-.too", 12);
    RejectedByLabels(lib, "*.bad-example-.too");
  }

  lemma RejectsLeadingDots(lib: Library)
    ensures !IsValidDomain(lib, "..invalid")
  {
    StripUnmarked("..invalid");
    RejectedByLabels(lib, "..invalid");
  }

  lemma RejectsDashedSingleLabel(lib: Library)
    ensures !IsValidDomain(lib, "invalid-too")
  {
    StripUnmarked("invalid-too");
    RejectedBySingleLabel(lib, "invalid-too");
  }

  lemma RejectsTopLevel(lib: Library)
    ensures !IsValidDomain(lib, "com")
  {
    StripUnmarked("com");
    RejectedBySingleLabel(lib, "com");
  }

  lemma RejectsWildInvalid(lib: Library)
    ensures !IsValidDomain(lib, "*.invalid")
  {
    StripMarked("invalid");
    RejectedBySingleLabel(lib, "*.invalid");
  }

  lemma RejectsTrailingDots(lib: Library)
    ensures !IsValidDomain(lib, "also-invalid..")
  {
    StripUnmarked("also-invalid..");
    RejectedByLabels(lib, "also-invalid..");
  }

  /** The names the package's tests expect to be rejected, whatever the foreign calls do. */
  lemma InvalidNamesRejected(lib: Library)
    ensures !IsValidDomain(lib, "")
    ensures !IsValidDomain(lib, ".")
    ensures !IsValidDomain(lib, "*.")
    ensures !IsValidDomain(lib, "@")
    ensures !IsValidDomain(lib, "*")
    ensures !IsValidDomain(lib, "a@")
    ensures !IsValidDomain(lib, "@a")
    ensures !IsValidDomain(lib, "a.*")
    ensures !IsValidDomain(lib, "*.a")
    ensures !IsValidDomain(lib, "*..")
    ensures !IsValidDomain(lib, "*.com")
    ensures !IsValidDomain(lib, "*.*.example.com")
    ensures !IsValidDomain(lib, "bad.*.example.com")
    ensures !IsValidDomain(lib, "*.-bad-example.com")
    ensures !IsValidDomain(lib, "*.bad-example-.too")
    ensures !IsValidDomain(lib, "..invalid")
    ensures !IsValidDomain(lib, "invalid-too")
    ensures !IsValidDomain(lib, "com")
    ensures !IsValidDomain(lib, "*.invalid")
    ensures !IsValidDomain(lib, "also-invalid..")
  {
    RejectsEmpty(lib);
    RejectsLoneDot(lib);
    RejectsBareMarker(lib);
    RejectsAt(lib);
    RejectsStar(lib);
    RejectsTrailingAt(lib);
    RejectsLeadingAt(lib);
    RejectsTrailingStar(lib);
    RejectsWildSingleLabel(lib);
    RejectsWildDots(lib);
    RejectsWildTopLevel(lib);
    RejectsDoubleWildcard(lib);
    RejectsInnerWildcard(lib);
    RejectsWildLeadingDash(lib);
    RejectsWildTrailingDash(lib);
    RejectsLeadingDots(lib);
    RejectsDashedSingleLabel(lib);
    RejectsTopLevel(lib);
    RejectsWildInvalid(lib);
    RejectsTrailingDots(lib);
  }

  lemma GoodLabelGoodWildcard(lib: Library)
    requires PrintsAscii(lib)
    ensures HostLabel(lib, "good-wildcard") && LabelOK("good-wildcard")
  {
  }

  lemma GoodLabelCyrillic(lib: Library)
    requires forall c <- "сильныйцветокрф" :: lib.isPrint(c)
    ensures HostLabel(lib, "сильныйцветок") && LabelOK("сильныйцветок")
    ensures HostLabel(lib, "рф") && LabelOK("рф")
  {
    GoodCyrillicLabel(lib, "сильныйцветок");
    GoodCyrillicLabel(lib, "рф");
  }

  /** A label of printable lower-case Cyrillic letters passes. */
  lemma GoodCyrillicLabel(lib: Library, t: string)
    requires |t| > 0 && forall c <- t :: 'а' <= c <= 'я' && lib.isPrint(c)
    ensures HostLabel(lib, t) && LabelOK(t)
  {
    assert t[0] in t && t[|t| - 1] in t;
  }

  /** A wildcard name from the package's tests that must be accepted. */
  lemma AcceptsWildGoodWildcardCom(lib: Library)
    requires PrintsAscii(lib) && IPLiteralShape(lib)
    ensures ValidWildcard(lib, "*.good-wildcard.com")
  {
    var labels := ["good-wildcard", "com"];
    GoodLabelGoodWildcard(lib);
    GoodLabelCom(lib);
    JoinSmall(labels);
    assert Join(labels, '.') == "good-wildcard.com";
    assert "*.good-wildcard.com" == Wildcard + "good-wildcard.com";
    StripMarked("good-wildcard.com");
    AcceptedByLabels(lib, "*.good-wildcard.com", labels);
  }

  /**
   * The internationalised wildcard name from the package's tests, accepted
   * when its Cyrillic letters are printable.
   */
  lemma AcceptsWildCyrillic(lib: Library)
    requires PrintsAscii(lib) && IPLiteralShape(lib)
    requires forall c <- "сильныйцветокрф" :: lib.isPrint(c)
    ensures ValidWildcard(lib, "*.сильныйцветок.рф")
    ensures StemDomain(lib, "*.сильныйцветок.рф") == "сильныйцветок.рф"
  {
    var labels := ["сильныйцветок", "рф"];
    GoodLabelCyrillic(lib);
    JoinSmall(labels);
    assert Join(labels, '.') == "сильныйцветок.рф";
    assert "*.сильныйцветок.рф" == Wildcard + "сильныйцветок.рф";
    StripMarked("сильныйцветок.рф");
    AcceptedByLabels(lib, "*.сильныйцветок.рф", labels);
  }

  /** The names the package's tests expect not to be valid wildcard names. */
  lemma InvalidWildcardsRejected(lib: Library)
    ensures !ValidWildcard(lib, "example.com")
    ensures !ValidWildcard(lib, "good.example.com")
    ensures !ValidWildcard(lib, "*.")
    ensures !ValidWildcard(lib, "*..")
    ensures !ValidWildcard(lib, "*.com")
    ensures !ValidWildcard(lib, "*.*.example.com")
    ensures !ValidWildcard(lib, "good.*.example.com")
    ensures !ValidWildcard(lib, "*.-bad-example.com")
    ensures !ValidWildcard(lib, "*.bad-example-.too")
    ensures !ValidWildcard(lib, "..invalid")
    ensures !ValidWildcard(lib, "invalid-too")
    ensures !ValidWildcard(lib, "*.invalid")
    ensures !ValidWildcard(lib, "also-invalid..")
  {
    InvalidNamesRejected(lib);
    StripUnmarked("example.com");
    StripUnmarked("good.example.com");
    StripUnmarked("good.*.example.com");
  }

  /** StemDomain drops the marker of a valid wildcard name from the package's tests. */
  lemma StemOfWildcardExample(lib: Library)
    requires PrintsAscii(lib) && IPLiteralShape(lib)
    ensures StemDomain(lib, "*.good.example.com") == "good.example.com"
  {
    assert "*.good.example.com" == Wildcard + "good.example.com";
    StripMarked("good.example.com");
    AcceptsWildGoodExampleCom(lib);
  }

  /** StemDomain keeps a valid plain name. */
  lemma StemOfPlainExample(lib: Library)
    requires PrintsAscii(lib) && IPLiteralShape(lib)
    ensures StemDomain(lib, "example.com") == "example.com"
  {
    AcceptsExampleCom(lib);
    StripUnmarked("example.com");
  }

  /** StemDomain gives the empty string for every name of the invalid list. */
  lemma StemOfInvalidNames(lib: Library)
    ensures StemDomain(lib, "") == []
    ensures StemDomain(lib, ".") == []
    ensures StemDomain(lib, "*.") == []
    ensures StemDomain(lib, "@") == []
    ensures StemDomain(lib, "*") == []
    ensures StemDomain(lib, "a@") == []
    ensures StemDomain(lib, "@a") == []
    ensures StemDomain(lib, "a.*") == []
    ensures StemDomain(lib, "*.a") == []
    ensures StemDomain(lib, "*..") == []
    ensures StemDomain(lib, "*.com") == []
    ensures StemDomain(lib, "*.*.example.com") == []
    ensures StemDomain(lib, "bad.*.example.com") == []
    ensures StemDomain(lib, "*.-bad-example.com") == []
    ensures StemDomain(lib, "*.bad-example-.too") == []
    ensures StemDomain(lib, "..invalid") == []
    ensures StemDomain(lib, "invalid-too") == []
    ensures StemDomain(lib, "com") == []
    ensures StemDomain(lib, "*.invalid") == []
    ensures StemDomain(lib, "also-invalid..") == []
  {
    InvalidNamesRejected(lib);
  }

  lemma RejectsGoodInnerWildcard(lib: Library)
    ensures !IsValidDomain(lib, "good.*.example.com")
  {
    StripUnmarked("good.*.example.com");
    RejectedByForbidden(lib, "good.*.example.com", 5);
  }

  /**
   * StemDomain on the invalid-wildcard list: the two valid plain names are
   * their own stems, every other name has the empty stem.
   */
  lemma StemOfInvalidWildcards(lib: Library)
    requires PrintsAscii(lib) && IPLiteralShape(lib)
    ensures StemDomain(lib, "example.com") == "example.com"
    ensures StemDomain(lib, "good.example.com") == "good.example.com"
    ensures StemDomain(lib, "*.") == []
    ensures StemDomain(lib, "*..") == []
    ensures StemDomain(lib, "*.com") == []
    ensures StemDomain(lib, "*.*.example.com") == []
    ensures StemDomain(lib, "good.*.example.com") == []
    ensures StemDomain(lib, "*.-bad-example.com") == []
    ensures StemDomain(lib, "*.bad-example-.too") == []
    ensures StemDomain(lib, "..invalid") == []
    ensures StemDomain(lib, "invalid-too") == []
    ensures StemDomain(lib, "*.invalid") == []
    ensures StemDomain(lib, "also-invalid..") == []
  {
    StemOfPlainExample(lib);
    AcceptsGoodExampleCom(lib);
    StripUnmarked("good.example.com");
    RejectsGoodInnerWildcard(lib);
    StemOfInvalidNames(lib);
  }

  /** PunycodeName keeps a valid name that the conversion leaves alone. */
  lemma PunycodeExampleCom(lib: Library)
    requires PrintsAscii(lib) && IPLiteralShape(lib)
    requires lib.toASCII("example.com") == Some("example.com")
    ensures PunycodeName(lib, "example.com") == "example.com"
  {
    AcceptsExampleCom(lib);
    StripUnmarked("example.com");
    PunycodeIdentity(lib, "example.com");
  }

  /**
   * PunycodeName on the internationalised wildcard name: the marker is put
   * back in front of the converted stem.
   */
  lemma PunycodeWildCyrillic(lib: Library)
    requires PrintsAscii(lib) && IPLiteralShape(lib)
    requires forall c <- "сильныйцветокрф" :: lib.isPrint(c)
    requires lib.toASCII("сильныйцветок.рф") == Some("xn--b1aghehcoluq5b8cl.xn--p1ai")
    ensures PunycodeName(lib, "*.сильныйцветок.рф") == Wildcard + "xn--b1aghehcoluq5b8cl.xn--p1ai"
  {
    AcceptsWildCyrillic(lib);
  }

  /**
   * A wildcard over an IP literal is accepted, because the IP test looks at
   * the whole name; its stem is the bare address, which is not valid, so
   * stemming twice loses the name.
   */
  lemma WildcardOverIPLiteral(lib: Library)
    requires PrintsAscii(lib) && IPLiteralShape(lib)
    requires lib.parseIP("192.168.0.1")
    ensures ValidWildcard(lib, "*.192.168.0.1")
    ensures StemDomain(lib, "*.192.168.0.1") == "192.168.0.1"
    ensures StemDomain(lib, StemDomain(lib, "*.192.168.0.1")) == []
  {
    var labels := ["192", "168", "0", "1"];
    GoodLabelsDigits(lib);
    JoinSmall(labels);
    assert Join(labels, '.') == "192.168.0.1";
    assert "*.192.168.0.1" == Wildcard + "192.168.0.1";
    StripMarked("192.168.0.1");
    AcceptedByLabels(lib, "*.192.168.0.1", labels);
  }

  lemma GoodLabelsDigits(lib: Library)
    requires PrintsAscii(lib)
    ensures HostLabel(lib, "192") && LabelOK("192")
    ensures HostLabel(lib, "168") && LabelOK("168")
    ensures HostLabel(lib, "0") && LabelOK("0")
    ensures HostLabel(lib, "1") && LabelOK("1")
  {
  }
}
