/**
 * The ApprovedMailID grammar of the user settings page: a comma-separated
 * list of addresses, each checked in order against a fixed pattern, and the
 * canonical ", "-joined form that added and edited values are stored in.
 */
module EmailList {
  import opened Wrappers
  import opened Text

  const EmptyInput := "Email field cannot be empty."
  const EmptyElement := "Detected an empty email. Please remove extra commas."
  const SpaceInElement := "Please separate multiple email IDs with a comma (,)."

  function InvalidFormat(e: string): string
  {
    "Invalid email format: '" + e + "'. Example: vikas@gmail.com"
  }

  predicate IsAlnum(c: char)
  {
    ('a' <= c <= 'z') || ('A' <= c <= 'Z') || ('0' <= c <= '9')
  }

  /** [a-zA-Z0-9_.+-] */
  predicate LocalChar(c: char)
  {
    IsAlnum(c) || c == '_' || c == '.' || c == '+' || c == '-'
  }

  /** [a-zA-Z0-9-] */
  predicate LabelChar(c: char)
  {
    IsAlnum(c) || c == '-'
  }

  /** [a-zA-Z0-9-.] */
  predicate TailChar(c: char)
  {
    IsAlnum(c) || c == '-' || c == '.'
  }

  predicate AllLocal(s: string)
  {
    forall k :: 0 <= k < |s| ==> LocalChar(s[k])
  }

  predicate AllLabel(s: string)
  {
    forall k :: 0 <= k < |s| ==> LabelChar(s[k])
  }

  predicate AllTail(s: string)
  {
    forall k :: 0 <= k < |s| ==> TailChar(s[k])
  }

  /**
   * The pattern ^[a-zA-Z0-9_.+-]+@[a-zA-Z0-9-]+\.[a-zA-Z0-9-.]+$ matched against
   * the whole of `e`, stated as the split it needs: '@' at i, the literal dot at j.
   */
  ghost predicate PatternSplit(e: string, i: int, j: int)
  {
    0 < i && i + 1 < j && j + 1 < |e| && e[i] == '@' && e[j] == '.'
    && AllLocal(e[..i]) && AllLabel(e[i + 1..j]) && AllTail(e[j + 1..])
  }

  ghost predicate MatchesPattern(e: string)
  {
    exists i, j :: PatternSplit(e, i, j)
  }

  /** The index of the first `c` in `s`, or |s| when there is none. */
  function Find(s: string, c: char): (r: nat)
    ensures r <= |s|
    ensures r < |s| ==> s[r] == c
    ensures forall k :: 0 <= k < r ==> s[k] != c
  {
    if s == [] then 0
    else if s[0] == c then 0
    else 1 + Find(s[1..], c)
  }

  /** The pattern check as the matcher runs it: the local part ends at the first '@', the label at the next '.'. */
  function FullMatch(e: string): bool
  {
    var i := Find(e, '@');
    if i == |e| then false
    else
      var rest := e[i + 1..];
      var d := Find(rest, '.');
      if d == |rest| then false
      else
        i > 0 && d > 0 && d + 1 < |rest|
        && AllLocal(e[..i]) && AllLabel(rest[..d]) && AllTail(rest[d + 1..])
  }

  /** The scan finds a match exactly when the pattern has one: no character class holds '@', the label holds no '.'. */
  lemma {:induction false} FullMatchIsPattern(e: string)
    ensures FullMatch(e) <==> MatchesPattern(e)
  {
    if FullMatch(e) {
      FullMatchSound(e);
    }
    if MatchesPattern(e) {
      var a, b :| PatternSplit(e, a, b);
      PatternSplitFound(e, a, b);
    }
  }

  lemma {:induction false} FullMatchSound(e: string)
    requires FullMatch(e)
    ensures PatternSplit(e, Find(e, '@'), Find(e, '@') + 1 + Find(e[Find(e, '@') + 1..], '.'))
  {
    var i := Find(e, '@');
    var rest := e[i + 1..];
    var d := Find(rest, '.');
    var j := i + 1 + d;
    assert e[i + 1..j] == rest[..d];
    assert e[j + 1..] == rest[d + 1..];
  }

  /** Find returns the first occurrence. */
  lemma {:induction false} FindFirst(s: string, c: char, a: nat)
    requires a < |s| && s[a] == c
    requires forall k :: 0 <= k < a ==> s[k] != c
    ensures Find(s, c) == a
  {
    if a > 0 {
      FindFirst(s[1..], c, a - 1);
    }
  }

  lemma {:induction false} PatternSplitFound(e: string, a: int, b: int)
    requires PatternSplit(e, a, b)
    ensures FullMatch(e)
  {
    forall k | 0 <= k < a ensures e[k] != '@' {
      assert LocalChar(e[..a][k]);
    }
    FindFirst(e, '@', a);
    var rest := e[a + 1..];
    forall k | 0 <= k < b - a - 1 ensures rest[k] != '.' {
      assert LabelChar(e[a + 1..b][k]);
    }
    FindFirst(rest, '.', b - a - 1);
    assert rest[..b - a - 1] == e[a + 1..b];
    assert rest[b - a..] == e[b + 1..];
  }

  /**
   * email_regex.match(e): `$` also matches just before a final newline, so the
   * pattern may cover `e` without that newline.
   */
  function RegexMatch(e: string): bool
  {
    FullMatch(e) || (|e| > 0 && e[|e| - 1] == '\n' && FullMatch(e[..|e| - 1]))
  }

  /** On the stripped elements the validator checks, the final-newline allowance never applies. */
  lemma {:induction false} RegexMatchStripped(e: string)
    requires IsStripped(e)
    ensures RegexMatch(e) <==> MatchesPattern(e)
  {
    FullMatchIsPattern(e);
  }

  /** The verdict on the elements in order: the first failing check wins. */
  function CheckElements(es: seq<string>): (r: (bool, string))
    ensures r.0 <==> r.1 == ""
    ensures r.0 <==> forall k :: 0 <= k < |es| ==> es[k] != "" && ' ' !in es[k] && RegexMatch(es[k])
  {
    if es == [] then (true, "")
    else
      var e := es[0];
      if e == "" then (false, EmptyElement)
      else if ' ' in e then (false, SpaceInElement)
      else if !RegexMatch(e) then (false, InvalidFormat(e))
      else
        var rest := CheckElements(es[1..]);
        assert forall k :: 1 <= k < |es| ==> es[k] == es[1..][k - 1];
        rest
  }

  /** One element passes every check of the scan. */
  predicate ElementPasses(e: string)
  {
    e != "" && ' ' !in e && RegexMatch(e)
  }

  /** The message for a failing element: the first of its checks that fails. */
  function ElementMessage(e: string): string
  {
    if e == "" then EmptyElement else if ' ' in e then SpaceInElement else InvalidFormat(e)
  }

  /** The scan stops at the first failing element and reports that element's first failing check. */
  lemma {:induction false} FirstFailureWins(es: seq<string>, k: nat)
    requires k < |es| && !ElementPasses(es[k])
    requires forall j :: 0 <= j < k ==> ElementPasses(es[j])
    ensures CheckElements(es) == (false, ElementMessage(es[k]))
    decreases k
  {
    if k > 0 {
      assert ElementPasses(es[0]);
      assert es[1..][k - 1] == es[k];
      assert forall j :: 0 <= j < k - 1 ==> es[1..][j] == es[j + 1];
      FirstFailureWins(es[1..], k - 1);
    }
  }

  /** validate_email_input: (is_valid, error_message) for an editor value or form field (None when absent). */
  function Validate(input: Option<string>): (r: (bool, string))
  {
    if input.None? || input.value == "" || Strip(input.value) == "" then (false, EmptyInput)
    else CheckElements(Elements(input.value))
  }

  /** The early-return scan of validate_email_input. */
  method ValidateEmailInput(input: Option<string>) returns (ok: bool, message: string)
    ensures (ok, message) == Validate(input)
  {
    if input.None? || input.value == "" || Strip(input.value) == "" {
      return false, EmptyInput;
    }
    var emails := StripAll(Split(input.value, ','));
    for i := 0 to |emails|
      invariant CheckElements(emails) == CheckElements(emails[i..])
    {
      var e := emails[i];
      assert emails[i..][1..] == emails[i + 1..];
      if e == "" {
        return false, EmptyElement;
      }
      if ' ' in e {
        return false, SpaceInElement;
      }
      if !RegexMatch(e) {
        return false, InvalidFormat(e);
      }
    }
    return true, "";
  }

  /** The stored form of an address list: its stripped elements joined with ", ". */
  function Canonical(s: string): string
  {
    Join(Elements(s), ", ")
  }

  /** The canonical form has exactly the elements of the value it came from. */
  lemma {:induction false} CanonicalElements(s: string)
    ensures Elements(Canonical(s)) == Elements(s)
  {
    ElementsOfJoin(Elements(s));
  }

  /** Canonicalising twice changes nothing. */
  lemma {:induction false} CanonicalIdempotent(s: string)
    ensures Canonical(Canonical(s)) == Canonical(s)
  {
    CanonicalElements(s);
  }

  lemma {:induction false} TwoPiecesHaveSeparator(s: string, d: char)
    requires |Split(s, d)| >= 2
    ensures d in s
  {
    if d !in s {
      SplitWithoutSeparator(s, d);
    }
  }

  /** A value and its canonical form get the same verdict, so a valid value stays valid once stored. */
  lemma {:induction false} CanonicalSameVerdict(s: string)
    ensures Validate(Some(Canonical(s))) == Validate(Some(s))
  {
    CanonicalElements(s);
    if |Elements(s)| == 1 {
      SingleElementCanonical(s);
    } else {
      SeveralElementsCanonical(s);
    }
  }

  lemma {:induction false} SingleElementCanonical(s: string)
    requires |Elements(s)| == 1
    ensures Canonical(s) == Strip(s)
    ensures Strip(Canonical(s)) == "" <==> Strip(s) == ""
  {
    JoinSplit(s, ',');
    StripIdempotent(s);
  }

  lemma {:induction false} SeveralElementsCanonical(s: string)
    requires |Elements(s)| >= 2
    ensures s != "" && Strip(s) != ""
    ensures Canonical(s) != "" && Strip(Canonical(s)) != ""
  {
    var es := Elements(s);
    TwoPiecesHaveSeparator(s, ',');
    NotBlank(s, ',');
    var c := Canonical(s);
    assert c == es[0] + ", " + Join(es[1..], ", ");
    assert c[|es[0]|] == ',';
    NotBlank(c, ',');
  }

  lemma {:induction false} NotBlank(s: string, d: char)
    requires d in s && !IsSpace(d)
    ensures s != "" && Strip(s) != ""
  {
    StripEmptyIffBlank(s);
    var k :| 0 <= k < |s| && s[k] == d;
  }

  lemma {:induction false} CanonicalKeepsValid(s: string)
    requires Validate(Some(s)).0
    ensures Validate(Some(Canonical(s))) == (true, "")
  {
    CanonicalSameVerdict(s);
  }

  /** A missing input, and an input of blanks only (the empty one included), is refused with the empty-field message. */
  lemma {:induction false} BlankInputRejected(s: string)
    requires forall k :: 0 <= k < |s| ==> IsSpace(s[k])
    ensures Validate(None) == (false, EmptyInput)
    ensures Validate(Some(s)) == (false, EmptyInput)
  {
    StripEmptyIffBlank(s);
  }

  /**
   * A non-blank input is refused with the message of its first failing
   * element, the elements before it having passed.
   */
  lemma {:induction false} ValidateFirstFailure(s: string, k: nat)
    requires exists j :: 0 <= j < |s| && !IsSpace(s[j])
    requires k < |Elements(s)| && !ElementPasses(Elements(s)[k])
    requires forall j :: 0 <= j < k ==> ElementPasses(Elements(s)[j])
    ensures Validate(Some(s)) == (false, ElementMessage(Elements(s)[k]))
  {
    StripEmptyIffBlank(s);
    FirstFailureWins(Elements(s), k);
  }

  /** A doubled comma after an address that passes is refused as an empty element. */
  lemma {:induction false} DoubledCommaRejected(a: string, b: string)
    requires ',' !in a && ',' !in b
    requires CheckElements([Strip(a)]).0
    ensures Validate(Some(a + ",," + b)) == (false, EmptyElement)
  {
    var s := a + ",," + b;
    assert s == a + [','] + ("" + [','] + b);
    SplitAtSeparator(a, "" + [','] + b, ',');
    SplitAtSeparator("", b, ',');
    SplitWithoutSeparator(b, ',');
    var es := Elements(s);
    assert es[0] == Strip(a) && es[1] == Strip("");
    assert s[|a|] == ',';
    NotBlank(s, ',');
    assert CheckElements(es) == CheckElements(es[1..]);
  }

  /** A single address is judged by the space check, then the pattern, on its stripped form. */
  lemma {:induction false} SingleAddressVerdict(a: string)
    requires ',' !in a && Strip(a) != ""
    ensures Validate(Some(a)) ==
              if ' ' in Strip(a) then (false, SpaceInElement)
              else if !RegexMatch(Strip(a)) then (false, InvalidFormat(Strip(a)))
              else (true, "")
  {
    SplitWithoutSeparator(a, ',');
    var es := Elements(a);
    assert es == [Strip(a)];
  }
}
