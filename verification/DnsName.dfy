/** Turning a policy name into the name of its lease: a DNS label of section 2.1 of RFC 1123, at
    most 63 octets by section 2.3.4 of RFC 1035.  Unicode lower-casing is a function handed in. */
module DnsName {

  const MAX := 63
  const FALLBACK := "logpilot-cluster-policy"

  predicate Alnum(c: char) {
    'a' <= c <= 'z' || '0' <= c <= '9'
  }

  predicate Allowed(c: char) {
    Alnum(c) || c == '-'
  }

  /** A valid label: 1 to 63 lower case letters, digits and hyphens, no hyphen at either end. */
  ghost predicate IsLabel(s: string) {
    && 0 < |s| <= 63
    && (forall i :: 0 <= i < |s| ==> 'a' <= s[i] <= 'z' || '0' <= s[i] <= '9' || s[i] == '-')
    && s[0] != '-' && s[|s| - 1] != '-'
  }

  function TrimLeft(s: string): string {
    if s != "" && s[0] == '-' then TrimLeft(s[1..]) else s
  }

  function TrimRight(s: string): string {
    if s != "" && s[|s| - 1] == '-' then TrimRight(s[..|s| - 1]) else s
  }

  function Sanitize(s: string, lower: char -> char): (r: string)
    ensures |r| == |s|
    ensures forall i :: 0 <= i < |s| ==> r[i] == if Allowed(lower(s[i])) then lower(s[i]) else '-'
  {
    seq(|s|, i requires 0 <= i < |s| => if Allowed(lower(s[i])) then lower(s[i]) else '-')
  }

  function Name(value: string, lower: char -> char): string {
    var trimmed := TrimRight(TrimLeft(Sanitize(value, lower)));
    var out := if |trimmed| > MAX then TrimRight(trimmed[..MAX]) else trimmed;
    if out == "" then FALLBACK else out
  }

  /** The same, building the name character by character. */
  method Build(value: string, lower: char -> char) returns (out: string)
    ensures out == Name(value, lower)
  {
    var b := "";
    for i := 0 to |value|
      invariant b == Sanitize(value, lower)[..i]
    {
      var r := lower(value[i]);
      if Allowed(r) {
        b := b + [r];
      } else {
        b := b + "-";
      }
    }
    assert b == Sanitize(value, lower);
    out := TrimRight(TrimLeft(b));
    if |out| > MAX {
      out := TrimRight(out[..MAX]);
    }
    if out == "" {
      out := FALLBACK;
    }
  }

  ghost predicate AllAllowed(s: string) {
    forall i :: 0 <= i < |s| ==> Allowed(s[i])
  }

  lemma {:induction false} TrimLeftFacts(s: string)
    requires AllAllowed(s)
    ensures AllAllowed(TrimLeft(s)) && (TrimLeft(s) != "" ==> Alnum(TrimLeft(s)[0]))
    decreases |s|
  {
    if s != "" && s[0] == '-' {
      TrimLeftFacts(s[1..]);
    }
  }

  lemma {:induction false} TrimRightFacts(s: string)
    requires AllAllowed(s) && (s != "" ==> Alnum(s[0]))
    ensures var t := TrimRight(s);
            AllAllowed(t) && |t| <= |s| && (t != "" ==> Alnum(t[0]) && Alnum(t[|t| - 1]))
    decreases |s|
  {
    if s != "" && s[|s| - 1] == '-' {
      TrimRightFacts(s[..|s| - 1]);
    }
  }

  /** Every name, whatever the input, is a valid label. */
  lemma NameIsLabel(value: string, lower: char -> char)
    ensures IsLabel(Name(value, lower))
  {
    hide TrimLeft, TrimRight;
    var left := TrimLeft(Sanitize(value, lower));
    TrimLeftFacts(Sanitize(value, lower));
    TrimRightFacts(left);
    var trimmed := TrimRight(left);
    if |trimmed| > MAX {
      TrimRightFacts(trimmed[..MAX]);
    }
    FallbackIsLabel();
  }

  lemma FallbackIsLabel()
    ensures IsLabel(FALLBACK)
  {
  }

  /** A lower case letter, a digit or a hyphen. */
  ghost predicate Plain(c: char) {
    'a' <= c <= 'z' || '0' <= c <= '9' || c == '-'
  }

  /** A valid label is its own name, so the mapping is idempotent; `lower` only has to leave lower
      case letters, digits and hyphens alone. */
  lemma LabelIsFixed(s: string, lower: char -> char)
    requires IsLabel(s) && forall c :: Plain(c) ==> lower(c) == c
    ensures Name(s, lower) == s
  {
    assert Sanitize(s, lower) == s;
  }

  lemma NameIdempotent(value: string, lower: char -> char)
    requires forall c :: Plain(c) ==> lower(c) == c
    ensures Name(Name(value, lower), lower) == Name(value, lower)
  {
    NameIsLabel(value, lower);
    LabelIsFixed(Name(value, lower), lower);
  }

  // ---------------------------------------------------------------- which name it is

  lemma {:induction false} TrimLeftExact(s: string, a: nat)
    requires a <= |s| && (forall i :: 0 <= i < a ==> s[i] == '-') && (a < |s| ==> s[a] != '-')
    ensures TrimLeft(s) == s[a..]
    decreases a
  {
    if a > 0 {
      TrimLeftExact(s[1..], a - 1);
      assert s[1..][a - 1..] == s[a..];
    }
  }

  lemma {:induction false} TrimRightExact(s: string, n: nat)
    requires n <= |s| && (forall i :: n <= i < |s| ==> s[i] == '-') && (n > 0 ==> s[n - 1] != '-')
    ensures TrimRight(s) == s[..n]
    decreases |s|
  {
    if n < |s| {
      TrimRightExact(s[..|s| - 1], n);
      assert s[..|s| - 1][..n] == s[..n];
    } else {
      assert s[..n] == s;
    }
  }

  /** Behind the last character that is not a hyphen. */
  ghost function End(s: string): (n: nat)
    ensures n <= |s| && (forall i :: n <= i < |s| ==> s[i] == '-') && (n > 0 ==> s[n - 1] != '-')
  {
    if s == "" then 0
    else if s[|s| - 1] != '-' then |s|
    else End(s[..|s| - 1])
  }

  /** When some character of the input is kept: with `a` and `b` the first and last position of the
      sanitized text that are not hyphens, the name is the text between them, both included, cut
      at 63 characters and then back to its last character that is not a hyphen. */
  lemma {:induction false} NameExact(value: string, lower: char -> char, a: nat, b: nat)
    requires a <= b < |value|
    requires var s := Sanitize(value, lower);
             && s[a] != '-' && s[b] != '-'
             && (forall i :: 0 <= i < a ==> s[i] == '-') && (forall i :: b < i < |s| ==> s[i] == '-')
    ensures var core := Sanitize(value, lower)[a..b + 1];
            var cut := if |core| <= 63 then core else core[..63];
            && 0 < End(cut) && Name(value, lower) == cut[..End(cut)]
            && (|core| <= 63 ==> Name(value, lower) == core)
  {
    hide TrimLeft, TrimRight, Sanitize, End;
    var s := Sanitize(value, lower);
    TrimLeftExact(s, a);
    TrimRightExact(s[a..], b + 1 - a);
    var core := s[a..b + 1];
    assert s[a..][..b + 1 - a] == core;
    var cut := if |core| <= MAX then core else core[..MAX];
    assert cut[0] != '-';
    TrimRightExact(cut, End(cut));
    assert |core| <= MAX ==> End(cut) == |core| && cut[..|core|] == core;
  }

  /** When none is, the fallback is taken. */
  lemma {:induction false} FallbackExact(value: string, lower: char -> char)
    requires forall i :: 0 <= i < |value| ==> !Alnum(lower(value[i]))
    ensures Name(value, lower) == FALLBACK
  {
    var s := Sanitize(value, lower);
    TrimLeftExact(s, |s|);
    TrimRightExact("", 0);
  }
}
