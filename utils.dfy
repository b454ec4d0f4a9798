/**
 * Model of sampleapp/utils.py: `asbool`, which reads a configuration value
 * as a boolean, and `is_safe_url`, the open-redirect guard that the login
 * and register views apply to their `next` parameter.
 */
module Utils {
  import opened Wrappers
  import opened PyStr

  // ---------------------------------------------------------------------
  // asbool
  // ---------------------------------------------------------------------

  /** The kinds of Python object a configuration value can be. */
  datatype Value =
    | Str(s: string)
    | Bool(b: bool)
    | Int(i: int)
    | Bytes(data: seq<bv8>)
    | NoneValue

  /** The words `asbool` reads as `True`. */
  const TrueWords: set<string> := {"true", "yes", "on", "y", "t", "1"}

  /** The words `asbool` reads as `False`. */
  const FalseWords: set<string> := {"false", "no", "off", "n", "f", "0"}

  /** The words that denote `b`. */
  function Words(b: bool): set<string> {
    if b then TrueWords else FalseWords
  }

  /** Python's `bool(obj)`. */
  function Truthy(v: Value): (r: bool)
    ensures !r <==> v in {Str(""), Bool(false), Int(0), Bytes([]), NoneValue}
  {
    match v
    case Str(s) => s != []
    case Bool(b) => b
    case Int(i) => i != 0
    case Bytes(d) => d != []
    case NoneValue => false
  }

  /** The string `asbool` looks up: stripped, then lower-cased. */
  function Normalise(s: string): (r: string)
    ensures |r| <= |s| && Trimmed(r)
    ensures forall i :: 0 <= i < |r| ==> !IsAsciiUpper(r[i])
  {
    LowerKeepsTrimmed(Strip(s));
    Lower(Strip(s))
  }

  /** The text of the `ValueError` raised for a string that is no boolean word. */
  function RejectMessage(n: string): string {
    "Unable to interpret value \"" + n + "\" as boolean"
  }

  /** The look-up `asbool` applies to a normalised string. */
  function Lookup(n: string): (r: Result<bool, string>)
    ensures r.Ok? ==> n in Words(r.value)
    ensures r.Err? ==> n !in TrueWords && n !in FalseWords && r.error == RejectMessage(n)
  {
    if n in TrueWords then Ok(true)
    else if n in FalseWords then Ok(false)
    else Err(RejectMessage(n))
  }

  /**
   * `asbool(obj)`: a string is normalised and looked up in the two word
   * sets, any other string raises `ValueError`; every other object is
   * read by its truthiness.
   */
  function AsBool(v: Value): (r: Result<bool, string>)
    ensures r.Err? ==> v.Str?
  {
    match v
    case Str(s) => Lookup(Normalise(s))
    case _ => Ok(Truthy(v))
  }

  /** No word is both a true word and a false word, so the order of the two look-ups does not matter. */
  lemma WordsDisjoint()
    ensures TrueWords * FalseWords == {}
  {
  }

  /** Every boolean word is a non-empty string without whitespace at its ends. */
  lemma WordsAreTrimmed(w: string)
    requires w in TrueWords + FalseWords
    ensures w != [] && Trimmed(w)
  {
  }

  /** On strings, `asbool` ignores surrounding whitespace and ASCII case. */
  lemma AsBoolNormalised(s: string)
    ensures AsBool(Str(s)) == AsBool(Str(Normalise(s)))
  {
    StripLowerIdempotent(s);
  }

  /** The normalised word alone decides the outcome, in each of the three ways. */
  lemma LookupWords(n: string)
    ensures Lookup(n) == Ok(true) <==> n in TrueWords
    ensures Lookup(n) == Ok(false) <==> n in FalseWords
    ensures Lookup(n).Err? <==> n !in TrueWords + FalseWords
  {
    WordsDisjoint();
  }

  /** `s` is one of `words`, written in any ASCII case and framed by any whitespace. */
  ghost predicate SpellsOneOf(s: string, words: set<string>) {
    exists p, m, q :: s == p + m + q && Spaces(p) && Spaces(q) && Lower(m) in words
  }

  /** Lookup of the empty string fails. */
  lemma LookupEmpty()
    ensures Lookup("") == Err(RejectMessage(""))
  {
  }

  /** A string `asbool` reads as `b` is a word for `b` in some ASCII case, with whitespace around it. */
  lemma AsBoolSpellsWord(s: string, b: bool)
    requires AsBool(Str(s)) == Ok(b)
    ensures SpellsOneOf(s, Words(b))
  {
    assert Lookup(Normalise(s)) == Ok(b);
    StripFrames(s);
    var k := LeadingSpaces(s);
    var m := Strip(s);
    var p, q := s[..k], s[k + |m|..];
    assert s == p + m + q && Spaces(p) && Spaces(q) && Lower(m) in Words(b);
  }

  /** A word for `b`, in any ASCII case and with any whitespace around it, is read as `b`. */
  lemma WordSpelledAsBool(s: string, b: bool)
    requires SpellsOneOf(s, Words(b))
    ensures AsBool(Str(s)) == Ok(b)
  {
    var p, m, q :| s == p + m + q && Spaces(p) && Spaces(q) && Lower(m) in Words(b);
    WordsAreTrimmed(Lower(m));
    assert m != [] && Trimmed(m);
    StripPadded(p, m, q);
    assert Normalise(s) == Lower(m);
    LookupWords(Lower(m));
  }

  /**
   * `asbool` of a string is `b` exactly when the string is a word for `b`
   * in any ASCII case, with any whitespace around it.
   */
  lemma AsBoolSpells(s: string, b: bool)
    ensures AsBool(Str(s)) == Ok(b) <==> SpellsOneOf(s, Words(b))
  {
    if AsBool(Str(s)) == Ok(b) {
      AsBoolSpellsWord(s, b);
    }
    if SpellsOneOf(s, Words(b)) {
      WordSpelledAsBool(s, b);
    }
  }

  /** A string that is no boolean word, in any case and with any padding, is rejected. */
  lemma AsBoolRejects(s: string)
    ensures AsBool(Str(s)).Err? <==> !SpellsOneOf(s, TrueWords) && !SpellsOneOf(s, FalseWords)
  {
    AsBoolSpells(s, true);
    AsBoolSpells(s, false);
  }

  /** The empty string and whitespace-only strings are rejected, never read as a default. */
  lemma AsBoolRejectsBlank(s: string)
    requires Spaces(s)
    ensures AsBool(Str(s)) == Err(RejectMessage(""))
  {
    StripBlank(s);
    assert Normalise(s) == [];
    LookupEmpty();
  }

  /** Any non-string is read by its truthiness and is never rejected, so a bool comes back unchanged. */
  lemma AsBoolNonString(v: Value)
    requires !v.Str?
    ensures AsBool(v) == Ok(Truthy(v))
    ensures v.Bool? ==> AsBool(v) == Ok(v.b)
  {
  }

  /** `asbool(asbool(x)) == asbool(x)` whenever `asbool(x)` succeeds. */
  lemma AsBoolIdempotent(v: Value)
    requires AsBool(v).Ok?
    ensures AsBool(Bool(AsBool(v).value)) == AsBool(v)
  {
  }

  /** Padding and capitals are ignored: "  Yes\n" reads as true. */
  lemma AsBoolPaddedYes()
    ensures AsBool(Str("  Yes\n")) == Ok(true)
  {
    var m := "Yes";
    assert Lower(m) == "yes" by {
      assert Lower(m)[0] == 'y';
    }
    assert "  Yes\n" == "  " + m + "\n";
    WordSpelledAsBool("  Yes\n", true);
  }

  /** A string without whitespace at its ends is only lower-cased before the look-up. */
  lemma AsBoolTrimmed(s: string)
    requires Trimmed(s)
    ensures AsBool(Str(s)) == Lookup(Lower(s))
  {
    StripTrimmed(s);
  }

  /** A word outside both sets is rejected, with the normalised word in the message. */
  lemma AsBoolMaybe()
    ensures AsBool(Str("Maybe")) == Err(RejectMessage("maybe"))
  {
    AsBoolTrimmed("Maybe");
    LowerMaybe();
    LookupMaybe();
  }

  lemma LowerMaybe()
    ensures Lower("Maybe") == "maybe"
  {
  }

  lemma LookupMaybe()
    ensures Lookup("maybe") == Err(RejectMessage("maybe"))
  {
    assert "maybe" != "false" by {
      assert "maybe"[0] != "false"[0];
    }
  }

  /** Bytes are not parsed: `asbool(b"false")` is true, because the bytes are non-empty. */
  lemma AsBoolBytesFalse()
    ensures AsBool(Bytes([0x66, 0x61, 0x6c, 0x73, 0x65])) == Ok(true)
  {
  }

  // ---------------------------------------------------------------------
  // is_safe_url
  // ---------------------------------------------------------------------

  /**
   * A URL as `urlparse` splits it: scheme, network location (authority)
   * and the rest (path, parameters, query and fragment). As in
   * `urlparse`, an absent scheme or authority is the empty string.
   */
  datatype Url = Url(scheme: string, netloc: string, rest: string)

  /** The scheme and authority of a resolved URL: all that `is_safe_url` compares. */
  datatype Origin = Origin(scheme: string, netloc: string)

  /** The schemes a redirect may use. */
  predicate IsWebScheme(scheme: string) {
    scheme == "http" || scheme == "https"
  }

  /**
   * The scheme and authority of `urljoin(base, target)`: the scheme and
   * authority part of section 5.2.2 of RFC 3986 in its non-strict form
   * (a reference repeating the base's scheme is treated as having none),
   * with `urllib`'s reading of an empty authority as an absent one. A
   * missing target (`None`) is joined as the base itself.
   */
  function Join(base: Url, target: Option<Url>): (r: Origin)
    ensures target.None? ==> r == Origin(base.scheme, base.netloc)
    ensures target.Some? && target.value.scheme != "" ==> r.scheme == target.value.scheme
    ensures target.Some? && target.value.scheme == "" ==> r.scheme == base.scheme
    ensures target.Some? && target.value.netloc != "" ==> r.netloc == target.value.netloc
  {
    match target
    case None => Origin(base.scheme, base.netloc)
    case Some(t) =>
      if t.scheme != "" && t.scheme != base.scheme then Origin(t.scheme, t.netloc)
      else if t.netloc != "" then Origin(base.scheme, t.netloc)
      else Origin(base.scheme, base.netloc)
  }

  /** The scheme and authority part of strict RFC 3986 resolution (section 5.2.2), for comparison. */
  function StrictJoin(base: Url, t: Url): Origin {
    if t.scheme != "" then Origin(t.scheme, t.netloc)
    else if t.netloc != "" then Origin(base.scheme, t.netloc)
    else Origin(base.scheme, base.netloc)
  }

  /**
   * `is_safe_url(target)` against `request.host_url`: the joined target
   * must use http or https and keep the host's authority. In the target's
   * own terms: a missing target, or one with no scheme or the host's, is
   * safe when the host is web and the target names no other authority; a
   * target with another scheme is safe only when that scheme is web and it
   * names the host's authority.
   */
  predicate IsSafeUrl(hostUrl: Url, target: Option<Url>): (r: bool)
    ensures target.None? ==> (r <==> IsWebScheme(hostUrl.scheme))
    ensures target.Some? ==> (r <==>
      if target.value.scheme == "" || target.value.scheme == hostUrl.scheme then
        IsWebScheme(hostUrl.scheme) && (target.value.netloc == "" || target.value.netloc == hostUrl.netloc)
      else
        IsWebScheme(target.value.scheme) && target.value.netloc == hostUrl.netloc)
  {
    var t := Join(hostUrl, target);
    IsWebScheme(t.scheme) && t.netloc == hostUrl.netloc
  }

  /** The empty reference, which is what `urlparse("")` gives. */
  const EmptyReference := Url("", "", "")

  /** A target without scheme and authority (such as "/account") is safe whenever the host is http or https. */
  lemma RelativeReferenceSafe(hostUrl: Url, t: Url)
    requires t.scheme == "" && t.netloc == ""
    ensures IsSafeUrl(hostUrl, Some(t)) <==> IsWebScheme(hostUrl.scheme)
  {
  }

  /** A missing or empty target is the host URL itself: safe exactly when the host is http or https. */
  lemma MissingTargetSafe(hostUrl: Url)
    ensures IsSafeUrl(hostUrl, None) <==> IsWebScheme(hostUrl.scheme)
    ensures IsSafeUrl(hostUrl, Some(EmptyReference)) <==> IsWebScheme(hostUrl.scheme)
  {
  }

  /** A target naming another authority is unsafe, whether absolute ("https://evil.com") or network-path ("//evil.com/x"). */
  lemma ForeignAuthorityUnsafe(hostUrl: Url, t: Url)
    requires t.netloc != "" && t.netloc != hostUrl.netloc
    ensures !IsSafeUrl(hostUrl, Some(t))
  {
  }

  /** A target with a scheme other than http or https ("javascript:", "ftp://host") is unsafe, even when it names the host. */
  lemma ForeignSchemeUnsafe(hostUrl: Url, t: Url)
    requires t.scheme != "" && !IsWebScheme(t.scheme)
    ensures !IsSafeUrl(hostUrl, Some(t))
  {
  }

  /**
   * Where the target's scheme is absent or differs from the host's, the
   * join is strict RFC 3986 resolution; they differ only for a target that
   * repeats the host's scheme without an authority ("https:evil.com"),
   * which the non-strict join keeps on the host.
   */
  lemma JoinNonStrict(base: Url, t: Url)
    ensures !(t.scheme == base.scheme && t.scheme != "" && t.netloc == "") ==> Join(base, Some(t)) == StrictJoin(base, t)
    ensures t.scheme == base.scheme && t.scheme != "" && t.netloc == "" ==>
      Join(base, Some(t)) == Origin(base.scheme, base.netloc) && StrictJoin(base, t) == Origin(base.scheme, "")
  {
  }

  /** Joining the result of a join again changes nothing: the joined origin is already absolute whenever the base is. */
  lemma JoinIdempotent(base: Url, target: Option<Url>, rest: string)
    ensures var o := Join(base, target); Join(base, Some(Url(o.scheme, o.netloc, rest))) == o
  {
  }
}
