/**
 * `parse_azure_time` of getAlertscript.py, up to the call of
 * `datetime.fromisoformat`: a trailing `Z` becomes `+00:00`, and more than
 * six fractional digits before a `+HH:MM` offset are cut to six, as the
 * pattern `^(.*\.\d{6})\d*(\+\d{2}:\d{2})$` rewrites them.
 */
module AzureTime {
  import opened Wrappers
  import opened Strings

  /** `+HH:MM`. */
  predicate IsPlusOffset(t: string)
  {
    |t| == 6 && t[0] == '+' && IsDigit(t[1]) && IsDigit(t[2]) && t[3] == ':' && IsDigit(t[4]) && IsDigit(t[5])
  }

  /** `$` matches at the end of the string and also just before a final newline. */
  function TrimNewline(s: string): (core: string)
    ensures core == s || s == core + ['\n']
  {
    if |s| > 0 && s[|s| - 1] == '\n' then s[..|s| - 1] else s
  }

  /**
   * The pattern matches `core` with its `.` at position `p`: `.*` (no
   * newline) before it, at least six digits after it, then the offset.
   */
  ghost predicate FractionMatchAt(core: string, p: nat)
  {
    && |core| >= 6
    && IsPlusOffset(core[|core| - 6..])
    && p + 7 <= |core| - 6
    && core[p] == '.'
    && '\n' !in core[..p]
    && AllDigits(core[p + 1..|core| - 6])
  }

  /** The position of the last `c` in `s`. */
  function LastIndexOf(s: string, c: char): (r: Option<nat>)
    ensures r.None? ==> c !in s
    ensures r.Some? ==> r.value < |s| && s[r.value] == c && c !in s[r.value + 1..]
  {
    if s == [] then None
    else if s[|s| - 1] == c then Some(|s| - 1)
    else
      match LastIndexOf(s[..|s| - 1], c)
      case None => None
      case Some(p) => assert s[p + 1..] == s[p + 1..|s| - 1] + [s[|s| - 1]]; Some(p)
  }

  /** `re.match(...)`: the two groups when the pattern matches. */
  function MatchFraction(s: string): Option<(string, string)>
  {
    var core := TrimNewline(s);
    if |core| < 6 || !IsPlusOffset(core[|core| - 6..]) then None
    else
      match LastIndexOf(core[..|core| - 6], '.')
      case None => None
      case Some(p) =>
        if p + 7 <= |core| - 6 && '\n' !in core[..p] && AllDigits(core[p + 1..|core| - 6])
        then Some((core[..p + 7], core[|core| - 6..]))
        else None
  }

  /**
   * The match succeeds exactly when the pattern can match at some `.`;
   * that `.` is unique, and the groups are the text up to the sixth digit
   * after it and the offset.
   */
  lemma MatchFractionIsPattern(s: string)
    ensures MatchFraction(s).Some? <==> exists p :: FractionMatchAt(TrimNewline(s), p)
    ensures forall p | FractionMatchAt(TrimNewline(s), p) ::
      var core := TrimNewline(s);
      MatchFraction(s) == Some((core[..p + 7], core[|core| - 6..]))
  {
    var core := TrimNewline(s);
    forall p | FractionMatchAt(core, p)
      ensures MatchFraction(s) == Some((core[..p + 7], core[|core| - 6..]))
    {
      FractionAtLastDot(core, p);
    }
    if MatchFraction(s).Some? {
      var p := LastIndexOf(core[..|core| - 6], '.').value;
      assert FractionMatchAt(core, p);
    }
  }

  /** A `c` with no `c` after it is the last one. */
  lemma {:induction false} LastIndexAt(s: string, c: char, p: nat)
    requires p < |s| && s[p] == c
    requires forall i | p < i < |s| :: s[i] != c
    ensures LastIndexOf(s, c) == Some(p)
  {
    if p < |s| - 1 {
      LastIndexAt(s[..|s| - 1], c, p);
    }
  }

  /** A `.` the pattern can match at is the last `.` before the offset. */
  lemma FractionAtLastDot(core: string, p: nat)
    requires FractionMatchAt(core, p)
    ensures LastIndexOf(core[..|core| - 6], '.') == Some(p)
  {
    var body := core[..|core| - 6];
    forall i | p < i < |body|
      ensures body[i] != '.'
    {
      assert body[i] == core[p + 1..|core| - 6][i - p - 1];
    }
    LastIndexAt(body, '.', p);
  }

  /** The first step: a trailing `Z` is replaced by `+00:00`. */
  function UtcOffset(s: string): (t: string)
    ensures !EndsWith(t, "Z")
    ensures EndsWith(s, "Z") ==> t == s[..|s| - 1] + "+00:00"
    ensures !EndsWith(s, "Z") ==> t == s
  {
    if EndsWith(s, "Z") then
      var t := s[..|s| - 1] + "+00:00";
      assert t[|t| - 1] == '0';
      t
    else s
  }

  /** The second step: the two groups of a match, or the string as it is. */
  function Rewrite(t: string): string
  {
    match MatchFraction(t)
    case Some((fraction, offset)) => fraction + offset
    case None => t
  }

  /** `parse_azure_time` up to `fromisoformat`: the string it hands on. */
  function Normalised(s: string): string
  {
    Rewrite(UtcOffset(s))
  }

  /** What `datetime.fromisoformat` makes of a string. */
  datatype Parsed =
    | Invalid            // it raised
    | Naive              // a time without an offset
    | Aware(seconds: int)

  /** `parse_azure_time`: the normalised string, read by `fromIso`. */
  function ParseAzureTime(s: string, fromIso: string -> Parsed): Parsed
  {
    fromIso(Normalised(s))
  }

  /**
   * More than six fractional digits are cut to six, before a `+HH:MM`
   * offset or a `Z`, which becomes `+00:00`; exactly six are kept as they are.
   */
  lemma CutsFractionToSixDigits(date: string, six: string, more: string, offset: string)
    requires '\n' !in date
    requires |six| == 6 && AllDigits(six) && AllDigits(more)
    requires IsPlusOffset(offset)
    ensures Normalised(date + "." + six + more + offset) == date + "." + six + offset
    ensures Normalised(date + "." + six + more + "Z") == date + "." + six + "+00:00"
  {
    var z := date + "." + six + more + "Z";
    assert z[..|z| - 1] == date + "." + six + more;
    assert IsPlusOffset("+00:00");
    CutsBeforeOffset(date, six, more, offset);
    CutsBeforeOffset(date, six, more, "+00:00");
  }

  lemma CutsBeforeOffset(date: string, six: string, more: string, offset: string)
    requires '\n' !in date
    requires |six| == 6 && AllDigits(six) && AllDigits(more)
    requires IsPlusOffset(offset)
    ensures Normalised(date + "." + six + more + offset) == date + "." + six + offset
  {
    var s := date + "." + six + more + offset;
    var p := |date|;
    assert s[|s| - 6..] == offset;
    assert !EndsWith(s, "Z");
    assert TrimNewline(s) == s;
    assert s[..p] == date;
    assert s[p + 1..|s| - 6] == six + more;
    assert FractionMatchAt(s, p);
    MatchFractionIsPattern(s);
    assert s[..p + 7] == date + "." + six;
  }

  /** Fewer than six fractional digits do not match: the string is handed on as it is. */
  lemma KeepsShortFraction(date: string, digits: string, offset: string)
    requires |digits| < 6 && AllDigits(digits)
    requires IsPlusOffset(offset)
    ensures Normalised(date + "." + digits + offset) == date + "." + digits + offset
  {
    var s := date + "." + digits + offset;
    assert s[|s| - 6..] == offset;
    assert !EndsWith(s, "Z");
    assert TrimNewline(s) == s;
    var body := s[..|s| - 6];
    assert body == date + "." + digits;
    forall i | |date| < i < |body|
      ensures body[i] != '.'
    {
      assert body[i] == digits[i - |date| - 1];
    }
    LastIndexAt(body, '.', |date|);
  }

  /** A `-HH:MM` offset never matches, so such a string is handed on as it is. */
  lemma KeepsNegativeOffset(s: string)
    requires |s| >= 6 && s[|s| - 6] == '-' && IsDigit(s[|s| - 1])
    ensures Normalised(s) == s
  {
    assert !EndsWith(s, "Z");
    assert TrimNewline(s) == s;
    assert !IsPlusOffset(s[|s| - 6..]);
  }

  /** What a match leaves is handed on unchanged by a second normalisation. */
  lemma RewrittenIsFixed(core: string, p: nat)
    requires FractionMatchAt(core, p)
    ensures var u := core[..p + 7] + core[|core| - 6..]; !EndsWith(u, "Z") && Rewrite(u) == u
  {
    var u := core[..p + 7] + core[|core| - 6..];
    assert u[|u| - 6..] == core[|core| - 6..];
    assert !EndsWith(u, "Z") && TrimNewline(u) == u;
    assert u[..p] == core[..p];
    assert u[p + 1..|u| - 6] == core[p + 1..|core| - 6][..6];
    assert FractionMatchAt(u, p);
    MatchFractionIsPattern(u);
    assert u[..p + 7] + u[|u| - 6..] == u;
  }

  /** Rewriting a string without a trailing `Z` twice is rewriting it once. */
  lemma RewriteIdempotent(t: string)
    requires !EndsWith(t, "Z")
    ensures !EndsWith(Rewrite(t), "Z") && Rewrite(Rewrite(t)) == Rewrite(t)
  {
    if MatchFraction(t).Some? {
      var core := TrimNewline(t);
      var p := LastIndexOf(core[..|core| - 6], '.').value;
      assert FractionMatchAt(core, p);
      assert Rewrite(t) == core[..p + 7] + core[|core| - 6..];
      RewrittenIsFixed(core, p);
    }
  }

  /** Normalising twice is normalising once. */
  lemma NormalisedIdempotent(s: string)
    ensures Normalised(Normalised(s)) == Normalised(s)
  {
    var t := UtcOffset(s);
    RewriteIdempotent(t);
    assert UtcOffset(Rewrite(t)) == Rewrite(t);
  }
}
