/**
 * The e-mail pattern of User.Validate,
 *   ^([\w-]+(?:\.[\w-]+)*)@((?:[\w-]+\.)*\w[\w-]{0,66})\.([a-z]{2,6}(?:\.[a-z]{2})?)$
 * given twice: as the language of its parse trees (what the pattern means)
 * and as a deterministic check that splits at `@` and `.` (how it can be
 * decided), with a proof that the two agree on every string.
 */
module Email {
  import opened Wrappers
  import opened Text

  /** `[\w-]` */
  predicate IsSegmentChar(c: char) { IsWordChar(c) || c == '-' }

  /** `[\w-]+` */
  predicate IsSegment(s: string)
  {
    |s| >= 1 && forall i :: 0 <= i < |s| ==> IsSegmentChar(s[i])
  }

  predicate AllSegments(ss: seq<string>)
  {
    forall i :: 0 <= i < |ss| ==> IsSegment(ss[i])
  }

  /** `\w[\w-]{0,66}`: the last label before the extension, 1 to 67 characters. */
  predicate IsHostLabel(s: string)
  {
    1 <= |s| <= 67 && IsWordChar(s[0]) && forall i :: 1 <= i < |s| ==> IsSegmentChar(s[i])
  }

  /** `[a-z]{2,6}` */
  predicate IsExtension(s: string)
  {
    2 <= |s| <= 6 && forall i :: 0 <= i < |s| ==> IsLower(s[i])
  }

  /** `[a-z]{2}` */
  predicate IsCountryCode(s: string)
  {
    |s| == 2 && forall i :: 0 <= i < |s| ==> IsLower(s[i])
  }

  /**
   * A parse of an address: the dot-separated segments of the local part,
   * the labels repeated by `(?:[\w-]+\.)*`, the host label, the extension
   * and the optional country code.
   */
  datatype EmailParse = EmailParse(
    local: seq<string>,
    labels: seq<string>,
    host: string,
    extension: string,
    country: Option<string>)

  predicate WellFormed(p: EmailParse)
  {
    && |p.local| >= 1
    && AllSegments(p.local)
    && AllSegments(p.labels)
    && IsHostLabel(p.host)
    && IsExtension(p.extension)
    && (p.country.Some? ==> IsCountryCode(p.country.value))
  }

  /** The labels of the domain, in order. */
  function DomainLabels(p: EmailParse): seq<string>
  {
    p.labels + [p.host, p.extension] + (if p.country.Some? then [p.country.value] else [])
  }

  /** The text a parse stands for. */
  function Render(p: EmailParse): string
  {
    Join(p.local, '.') + "@" + Join(DomainLabels(p), '.')
  }

  /** The strings the pattern matches: those with a well-formed parse. */
  ghost predicate InLanguage(s: string)
  {
    exists p :: WellFormed(p) && Render(p) == s
  }

  /** The local part: every dot-separated piece is `[\w-]+`. */
  predicate LocalPartOk(l: string)
  {
    AllSegments(Split(l, '.'))
  }

  /**
   * The domain: its dot-separated pieces end in host.extension or in
   * host.extension.country, and every earlier piece is `[\w-]+`.
   */
  predicate DomainOk(d: string)
  {
    var ps := Split(d, '.');
    var n := |ps|;
    || (n >= 2 && IsHostLabel(ps[n - 2]) && IsExtension(ps[n - 1]) && AllSegments(ps[..n - 2]))
    || (n >= 3 && IsHostLabel(ps[n - 3]) && IsExtension(ps[n - 2]) && IsCountryCode(ps[n - 1])
        && AllSegments(ps[..n - 3]))
  }

  /** The check: exactly one `@`, a good local part before it and a good domain after it. */
  predicate MatchesEmail(s: string)
  {
    var at := Split(s, '@');
    |at| == 2 && LocalPartOk(at[0]) && DomainOk(at[1])
  }

  lemma SegmentAvoids(s: string, c: char)
    requires IsSegment(s) && !IsSegmentChar(c)
    ensures c !in s
  {
  }

  /**
   * The optional `(?:\.[a-z]{2})?` of the pattern never changes what it
   * matches: a two-letter country code is itself an extension and the
   * extension before it a host label, so a host.extension.country domain
   * also reads as host.extension.
   */
  lemma CountryCodeRedundant(d: string)
    ensures var ps := Split(d, '.'); var n := |ps|;
      DomainOk(d) <==> n >= 2 && IsHostLabel(ps[n - 2]) && IsExtension(ps[n - 1]) && AllSegments(ps[..n - 2])
  {
    var ps := Split(d, '.');
    var n := |ps|;
    if n >= 3 && IsHostLabel(ps[n - 3]) && IsExtension(ps[n - 2]) && IsCountryCode(ps[n - 1])
      && AllSegments(ps[..n - 3])
    {
      assert ps[..n - 2] == ps[..n - 3] + [ps[n - 3]];
    }
  }

  /** Every string the check accepts is in the language. */
  lemma {:induction false} MatchesEmailSound(s: string)
    requires MatchesEmail(s)
    ensures InLanguage(s)
  {
    var at := Split(s, '@');
    var local := Split(at[0], '.');
    var ps := Split(at[1], '.');
    var n := |ps|;
    CountryCodeRedundant(at[1]);
    var p := EmailParse(local, ps[..n - 2], ps[n - 2], ps[n - 1], None);
    assert DomainLabels(p) == ps;
    assert at == [at[0], at[1]];
    assert Join(at, '@') == at[0] + "@" + at[1];
    assert WellFormed(p) && Render(p) == s;
  }

  /** Every string in the language is accepted by the check. */
  lemma {:induction false} MatchesEmailComplete(p: EmailParse)
    requires WellFormed(p)
    ensures MatchesEmail(Render(p))
  {
    var l := Join(p.local, '.');
    var ds := DomainLabels(p);
    var d := Join(ds, '.');
    var n := |ds|;
    assert forall i :: 0 <= i < n ==> IsSegment(ds[i]);
    forall i | 0 <= i < |p.local| ensures '@' !in p.local[i] && '.' !in p.local[i] {
      SegmentAvoids(p.local[i], '@');
      SegmentAvoids(p.local[i], '.');
    }
    forall i | 0 <= i < n ensures '@' !in ds[i] && '.' !in ds[i] {
      SegmentAvoids(ds[i], '@');
      SegmentAvoids(ds[i], '.');
    }
    JoinAvoids(p.local, '.', '@');
    JoinAvoids(ds, '.', '@');
    assert Join([l, d], '@') == Render(p);
    SplitJoin([l, d], '@');
    SplitJoin(p.local, '.');
    SplitJoin(ds, '.');
    if p.country.None? {
      assert ds[..n - 2] == p.labels && ds[n - 2] == p.host && ds[n - 1] == p.extension;
    } else {
      assert ds[..n - 3] == p.labels && ds[n - 3] == p.host && ds[n - 2] == p.extension;
    }
  }

  /** The check decides the language. */
  lemma MatchesEmailCorrect(s: string)
    ensures MatchesEmail(s) <==> InLanguage(s)
  {
    if MatchesEmail(s) {
      MatchesEmailSound(s);
    }
    if InLanguage(s) {
      var p :| WellFormed(p) && Render(p) == s;
      MatchesEmailComplete(p);
    }
  }

  /** Splitting `a`, `sep`, `b` at `sep` when neither side holds it. */
  lemma SplitTwo(s: string, sep: char, a: string, b: string)
    requires s == a + [sep] + b && sep !in a && sep !in b
    ensures Split(s, sep) == [a, b]
  {
    SplitJoin([a, b], sep);
    assert Join([a, b], sep) == s;
  }

  /** A check that sees a piece of the local part that is not `[\w-]+` fails. */
  lemma RejectLocal(s: string, l: string, d: string, i: nat)
    requires Split(s, '@') == [l, d]
    requires i < |Split(l, '.')| && !IsSegment(Split(l, '.')[i])
    ensures !MatchesEmail(s)
  {
  }

  /** The address the repository's tests accept. */
  lemma MatchesEmailAcceptsPlain(s: string)
    requires s == "ide.johnc@gmail.com"
    ensures MatchesEmail(s)
  {
    var p := EmailParse(["ide", "johnc"], [], "gmail", "com", None);
    assert WellFormed(p);
    assert Render(p) == s;
    MatchesEmailComplete(p);
  }

  /** A domain with a further label and a country code. */
  lemma MatchesEmailAcceptsCountry(s: string)
    requires s == "ide.johnc@mail.gmail.co.uk"
    ensures MatchesEmail(s)
  {
    var p := EmailParse(["ide", "johnc"], ["mail"], "gmail", "co", Some("uk"));
    assert WellFormed(p);
    assert Render(p) == s;
    MatchesEmailComplete(p);
  }

  /** No `@`, or nothing before it. */
  lemma MatchesEmailRejectsNoLocalPart(s: string)
    requires s == "" || s == "ide.johncgmail.com" || s == "@gmail.com"
    ensures !MatchesEmail(s)
  {
    if s == "@gmail.com" {
      SplitTwo(s, '@', "", "gmail.com");
      SplitJoin([""], '.');
      RejectLocal(s, "", "gmail.com", 0);
    } else {
      SplitJoin([s], '@');
    }
  }

  /** The characters the pattern can match: `[\w-]`, `.` and `@`. */
  predicate InAlphabet(c: char) { IsSegmentChar(c) || c == '.' || c == '@' }

  lemma RenderAvoids(p: EmailParse, c: char)
    requires WellFormed(p) && !InAlphabet(c)
    ensures c !in Render(p)
  {
    var ds := DomainLabels(p);
    assert forall i :: 0 <= i < |ds| ==> IsSegment(ds[i]);
    forall i | 0 <= i < |p.local| ensures c !in p.local[i] {
      SegmentAvoids(p.local[i], c);
    }
    forall i | 0 <= i < |ds| ensures c !in ds[i] {
      SegmentAvoids(ds[i], c);
    }
    JoinAvoids(p.local, '.', c);
    JoinAvoids(ds, '.', c);
  }

  /** Every character of an accepted address is `[\w-]`, `.` or `@`. */
  lemma MatchesEmailAlphabet(s: string)
    ensures MatchesEmail(s) ==> forall k :: 0 <= k < |s| ==> InAlphabet(s[k])
  {
    if MatchesEmail(s) {
      MatchesEmailSound(s);
      var p :| WellFormed(p) && Render(p) == s;
      forall c | !InAlphabet(c) ensures c !in s {
        RenderAvoids(p, c);
      }
    }
  }

  /** A symbol in the local part, or in the domain. */
  lemma MatchesEmailRejectsSymbol(s: string)
    requires s == "ide.#johnc@gmail.com" || s == "ide.johnc@gmail#.com"
    ensures !MatchesEmail(s)
  {
    MatchesEmailAlphabet(s);
    var k := if s == "ide.#johnc@gmail.com" then 4 else 15;
    assert !InAlphabet(s[k]);
  }

  /** No domain, or a domain without an extension. */
  lemma MatchesEmailRejectsNoExtension(s: string)
    requires s == "ide.johnc@" || s == "ide.johnc@gmail"
    ensures !MatchesEmail(s)
  {
    var domain := if s == "ide.johnc@" then "" else "gmail";
    SplitJoin(["ide.johnc", domain], '@');
    assert Join(["ide.johnc", domain], '@') == s;
    SplitJoin([domain], '.');
  }
}
