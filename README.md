# domaincheck, modelled in Dafny

`domaincheck` is a small Go package that checks the syntax of DNS-style host
names, as they appear in certificate subject names. It has four operations:

- `Valid(domain)` runs a fixed sequence of checks and returns at the first
  one that fails:
  - no white space at either end;
  - not an IP literal;
  - strip at most one leading `*.`;
  - none of the characters `` _~`!@#$%^&*()=+{}[]|\;:'",<>/? `` and no space;
  - at least two `.`-separated tokens;
  - every token non-empty, not padded with white space, and not beginning or
    ending with `-`;
  - every character printable.
- `ValidWildcard(domain)` is `Valid` plus a test that the name starts with
  `*.`.
- `StemDomain(domain)` returns the name without its `*.` marker, or `""`
  when the name is not valid.
- `PunycodeName(domain)` converts the stem with the IDNA ASCII-compatible
  encoding and puts `*.` back in front of a wildcard name.

The model has four modules:

- `Wrappers` holds the `Option` type.
- `Text` holds the standard-library string operations the package uses:
  `unicode.IsSpace`, `strings.TrimSpace`, `strings.ContainsAny` and
  `strings.Split` with a one-character separator.
- `DomainCheck` holds the four operations and their properties.
  - `Valid` is a method. Its two `for … range` loops become `CheckLabels`
    and `CheckPrintable`, and it is proved equal to the verdict
    `IsValidDomain`.
  - `ValidWildcard`, `StemDomain` and `PunycodeName` are functions over
    that verdict.
  - `ValidByCharacters` restates the verdict over characters alone, with no
    tokens: every dot and both ends of the stem sit between characters that
    may begin or end a label.
- `DomainCheckExamples` holds the accept and reject lists of
  `domaincheck_test.go`, stated as lemmas.

Calls into code outside the package are fields of the `Library` value that
every operation takes:

- `isPrint` stands for `unicode.IsPrint`.
- `parseIP` stands for `net.ParseIP(s) != nil`.
- `toASCII` stands for `idna.ToASCII`, with `None` for an error.

The test vectors need a few facts about these calls, and the lemmas state
them as hypotheses:

- `PrintsAscii`: printable ASCII is printable.
- `IPLiteralShape`: an IP literal is made of digits and dots, or holds a
  colon.
- What `isPrint` and `toASCII` do on the particular Cyrillic and ASCII
  names used.

Two behaviours of the code are worth knowing:

- **Stemming twice can lose a wildcard over an IP address.** The IP test
  looks at the whole name, before `*.` is stripped. So `*.192.168.0.1` is a
  valid wildcard name, but its stem `192.168.0.1` is not a valid name.
  - `StemIdempotent` states that stemming twice changes nothing exactly
    when the name is invalid or its stem is not an IP literal.
  - `WildcardOverIPLiteral` exhibits the case.
- **An invalid name still reaches the conversion.** `PunycodeName` calls
  the conversion even when the stem is empty, i.e. when the name is invalid
  (domaincheck.go:92-96), and the model does the same. `PunycodeOfInvalid`
  states the result: whatever the conversion makes of the empty string.

## Model

| member | source | states |
|---|---|---|
| DomainCheck.IsValidDomain | domaincheck.go:12-65 | the verdict of Valid as a predicate: no white space at either end, not an IP literal, and the name after at most one `*.` passes the stem checks (no forbidden character, no space, at least two tokens, every token good, every character printable) |
| DomainCheck.Valid | domaincheck.go:12-65 | returns true exactly when the name has no white space at either end, is not an IP literal, and its remainder after at most one `*.` has no forbidden character and no space, splits into at least two tokens that are all non-empty, unpadded and dash-free at both ends, and is all printable |
| DomainCheck.CheckLabels | domaincheck.go:43-57 | the token loop succeeds exactly when every token is non-empty, loses nothing to TrimSpace and neither begins nor ends with `-` |
| DomainCheck.CheckPrintable | domaincheck.go:58-62 | the character loop succeeds exactly when every character is printable |
| DomainCheck.StripWildcard | domaincheck.go:22-25 | the name is either the result itself or `*.` followed by it, and it is shorter exactly when the name begins with `*.` |
| DomainCheck.AcceptedShape | domaincheck.go:13-57 | every accepted name has no edge white space, is no IP literal, and has a stem of at least three allowed printable characters that splits into at least two non-empty tokens without a dash or white space at either end; so reading `domain[:2]` is always in range |
| DomainCheck.LabelsWellDotted | domaincheck.go:37-57 | all tokens pass the per-token checks if and only if the string is well dotted: it is non-empty, its ends can end a label, and every dot lies between two characters that can end a label |
| DomainCheck.ValidByCharactersAgrees | domaincheck.go:12-65 | the token-based verdict and the character-level reading agree on every input |
| DomainCheck.LabelOKEdges | domaincheck.go:44-56 | for a dot-free token, the per-token checks look only at its first and last characters |
| DomainCheck.IPCheckOnlyForDottedDigits | domaincheck.go:18-20 | for a name that is not made only of digits and dots, the IP-literal test cannot change the verdict, because any other IP literal holds a colon and the colon is forbidden |
| DomainCheck.ValidWildcard | domaincheck.go:68-74 | a name is a valid wildcard exactly when it is valid and begins with `*.`; such a name has at least five characters and no `*` after the marker |
| DomainCheck.StemDomain | domaincheck.go:77-87 | the stem is empty exactly when the name is invalid; it is always a suffix of the name without `*`; it is the name minus `*.` for a valid wildcard and the name itself for a valid plain name |
| DomainCheck.StemHasNoWildcard | domaincheck.go:77-87 | no stem begins with `*.` or is itself a valid wildcard name |
| DomainCheck.StemIdempotent | domaincheck.go:18-25 | stemming a stem changes nothing if and only if the name is invalid or its stem is not an IP literal |
| DomainCheck.PunycodeName | domaincheck.go:90-104 | a conversion error gives `""`; the result is empty exactly when the conversion fails or returns `""`; otherwise it is the converted stem, behind `*.` exactly for a valid wildcard name |
| DomainCheck.PunycodeOfInvalid | domaincheck.go:92-96 | an invalid name gives the conversion of the empty stem, and `""` when that conversion fails or is empty |
| DomainCheck.PunycodeIdentity | domaincheck.go:90-104 | a valid name whose stem the conversion leaves unchanged comes back as itself, marker included |
| Text.TrimSpace | domaincheck.go:13-14 | the result is a slice of the input with only white space before and after it, has no white space at either end, and is strictly shorter exactly when the input starts or ends with white space |
| Text.IsSpace | domaincheck.go:13-14 | white space as unicode.IsSpace defines it: tab, line feed, vertical tab, form feed, carriage return, space, U+0085, U+00A0, and the other Unicode White_Space characters U+1680, U+2000-U+200A, U+2028, U+2029, U+202F, U+205F, U+3000 |
| Text.ContainsAny | domaincheck.go:28 | some character of the string is one of the given characters |
| Text.Split | domaincheck.go:37 | at least one piece, no piece holds the separator, joining the pieces gives back the input, and there is exactly one piece when the separator does not occur |
| Text.SplitJoin | domaincheck.go:37 | splitting undoes joining pieces that do not hold the separator |
| DomainCheckExamples.JoinWellDotted | domaincheck.go:37-57 | joining good dot-free labels with dots gives a well-dotted string |
| DomainCheckExamples.ValidNamesAccepted | domaincheck_test.go:8-15 | each name of the valid list is accepted, given that printable ASCII is printable and IP literals are digits and dots or hold a colon |
| DomainCheckExamples.InvalidNamesRejected | domaincheck_test.go:17-38 | each name of the invalid list is rejected, whatever the foreign calls do |
| DomainCheckExamples.AcceptsWildGoodWildcardCom | domaincheck_test.go:40-41 | `*.good-wildcard.com` is a valid wildcard name |
| DomainCheckExamples.AcceptsWildCyrillic | domaincheck_test.go:42 | `*.сильныйцветок.рф` is a valid wildcard name with stem `сильныйцветок.рф` when its letters are printable |
| DomainCheckExamples.InvalidWildcardsRejected | domaincheck_test.go:45-59 | each name of the invalid-wildcard list is not a valid wildcard name, whatever the foreign calls do |
| DomainCheckExamples.StemOfWildcardExample | domaincheck_test.go:90-95 | the stem of `*.good.example.com` is `good.example.com` |
| DomainCheckExamples.StemOfPlainExample | domaincheck_test.go:96-98 | the stem of `example.com` is the name itself |
| DomainCheckExamples.StemOfInvalidNames | domaincheck_test.go:111-115 | each of the twenty names of the invalid list has the empty stem |
| DomainCheckExamples.StemOfInvalidWildcards | domaincheck_test.go:101-109 | on the invalid-wildcard list, the two valid plain names are their own stems and every other name has the empty stem |
| DomainCheckExamples.PunycodeExampleCom | domaincheck.go:90-104 | `example.com` is unchanged when the conversion leaves it alone |
| DomainCheckExamples.PunycodeWildCyrillic | domaincheck.go:98-101 | `*.сильныйцветок.рф` becomes `*.xn--b1aghehcoluq5b8cl.xn--p1ai` when its stem converts to `xn--b1aghehcoluq5b8cl.xn--p1ai` |
| DomainCheckExamples.WildcardOverIPLiteral | domaincheck.go:18-25 | `*.192.168.0.1` is a valid wildcard name whose stem `192.168.0.1` has the empty stem, so stemming is not idempotent over IP literals |

## Left out

- `idna.ToASCII`, the UTS #46 mapping and RFC 3492 Punycode encoding behind
  it, is an opaque function field of `Library`. Concrete conversions appear
  only as hypotheses.
- `net.ParseIP` is an opaque predicate field of `Library`. No IPv4 or IPv6
  parsing rule is modelled; the lemmas that need one assume only that an IP
  literal is made of digits and dots or holds a colon.
- `unicode.IsPrint` is an opaque predicate field of `Library`, because its
  Unicode tables are not modelled. `unicode.IsSpace` is modelled exactly: it
  is the fixed White_Space set.
- Go strings are byte sequences, and `len` counts bytes. The model works on
  runes.
  - The two length comparisons only detect whether something was trimmed,
    and trimming removes whole runes, so the verdict is the same.
  - Invalid UTF-8, which `for … range` reads as U+FFFD, is not modelled.
- The reassignment of `domain` in `Valid` (domaincheck.go:24) becomes a
  fresh local holding the stripped name.
- DNS length limits (255 octets per name, 63 per label) are not modelled,
  because the code does not enforce them.
- The `testing` harness and `t.Fatal` reporting are not modelled. The test
  lists are lemmas instead.
