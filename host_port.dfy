/**
 * `parseHostAndPort`: splits a user-supplied `host` parameter into a host and
 * an optional port, accepting `[literal]:port` and `host:port` (split at the
 * last colon), where a port is one to five ASCII digits.
 */
module HostPort {
  import opened Wrappers
  import opened Text

  /** The result of `parseHostAndPort`: the host and the port, if one was given. */
  datatype Parsed = Parsed(host: string, port: Option<nat>)

  /** `s` is the bracketed form `[h]:d` that `^\[([^\]]+)\]:(\d{1,5})$` matches,
      with `h` the first capture group and `d` the second. */
  predicate BracketForm(s: string, h: string, d: string) {
    && |h| >= 1
    && ']' !in h
    && IsPortDigits(d)
    && s == "[" + h + "]:" + d
  }

  /** The match of `^\[([^\]]+)\]:(\d{1,5})$`: the host group cannot contain `]`,
      so it ends at the first `]` after the opening bracket. */
  function MatchBracketed(s: string): (r: Option<(string, string)>)
    ensures r.Some? ==> BracketForm(s, r.value.0, r.value.1)
  {
    if |s| == 0 || s[0] != '[' then None
    else
      var j := IndexOf(s[1..], ']');
      if j < 1 || j + 3 > |s| || s[j + 2] != ':' || !IsPortDigits(s[j + 3..]) then None
      else
        var h, d := s[1..j + 1], s[j + 3..];
        assert ']' !in h by {
          forall k | 0 <= k < |h| ensures h[k] != ']' {
            assert h[k] == s[1..][k];
          }
        }
        assert s == "[" + h + "]:" + d;
        Some((h, d))
  }

  /** Every string of the bracketed form is matched, with exactly its two groups. */
  lemma MatchBracketedComplete(s: string, h: string, d: string)
    requires BracketForm(s, h, d)
    ensures MatchBracketed(s) == Some((h, d))
  {
    var t := s[1..];
    assert t == h + "]:" + d;
    var j := IndexOf(t, ']');
    assert t[|h|] == ']';
    assert forall k :: 0 <= k < |h| ==> t[k] == h[k];
    assert j == |h|;
    assert s[j + 2] == ':';
    assert s[j + 3..] == d;
    assert s[1..j + 1] == h;
  }

  /** `s` ends in `:` followed by one to five digits after its last colon. */
  predicate HasPortSuffix(s: string) {
    var idx := LastIndexOf(s, ':');
    idx > -1 && IsPortDigits(s[idx + 1..])
  }

  /** `parseHostAndPort`: trim, then parse. */
  function ParseHostAndPort(input: string): (r: Parsed)
    ensures r.port.Some? ==> r.port.value <= 99999
    ensures r.port.None? ==> r.host == Trim(input)
  {
    ParseTrimmed(Trim(input))
  }

  /** `parseHostAndPort` after `trim`. `Number` of one to five digits is always
      finite, so the branches that drop a non-finite port never apply. */
  function ParseTrimmed(s: string): (r: Parsed)
    ensures r.port.Some? ==> r.port.value <= 99999
    ensures r.port.None? ==> r.host == s
  {
    match MatchBracketed(s)
    case Some((h, d)) =>
      PortDigitsBound(d);
      Parsed(h, Some(DigitsValue(d)))
    case None =>
      var idx := LastIndexOf(s, ':');
      if idx > -1 && IsPortDigits(s[idx + 1..]) then
        PortDigitsBound(s[idx + 1..]);
        Parsed(s[..idx], Some(DigitsValue(s[idx + 1..])))
      else
        Parsed(s, None)
  }

  /** A trimmed input of the bracketed form yields the literal without its
      brackets and the decimal value of the digits. */
  lemma ParseBracketed(input: string, h: string, d: string)
    requires BracketForm(Trim(input), h, d)
    ensures ParseHostAndPort(input) == Parsed(h, Some(DigitsValue(d)))
  {
    MatchBracketedComplete(Trim(input), h, d);
  }

  /** `host:port` round-trips: the split is at the last colon, so `h` may itself
      contain colons, and `h` is returned as given, trailing spaces included. */
  lemma ParseRoundTrip(h: string, d: string)
    requires h == [] || (h[0] != '[' && !IsWhitespace(h[0]))
    requires IsPortDigits(d)
    ensures ParseHostAndPort(h + ":" + d) == Parsed(h, Some(DigitsValue(d)))
  {
    ColonPortIsBare(h, d);
    ParseBare(h + ":" + d);
    ParseTrimmedRoundTrip(h, d);
  }

  /** An input without surrounding whitespace is parsed as it is. */
  lemma ParseBare(s: string)
    requires Bare(s)
    ensures ParseHostAndPort(s) == ParseTrimmed(s)
  {
    TrimFixpoint(s);
  }

  /** The round trip after trimming. */
  lemma ParseTrimmedRoundTrip(h: string, d: string)
    requires h == [] || h[0] != '['
    requires IsPortDigits(d)
    ensures ParseTrimmed(h + ":" + d) == Parsed(h, Some(DigitsValue(d)))
  {
    var s := h + ":" + d;
    assert s[0] != '[';
    NotBracketed(s);
    LastColonBeforePort(h, d);
    assert s[|h| + 1..] == d;
    assert s[..|h|] == h;
  }

  /** Only a string that starts with `[` can match the bracketed form. */
  lemma NotBracketed(s: string)
    requires |s| == 0 || s[0] != '['
    ensures MatchBracketed(s) == None
  {
  }

  lemma ColonPortIsBare(h: string, d: string)
    requires h == [] || !IsWhitespace(h[0])
    requires IsPortDigits(d)
    ensures Bare(h + ":" + d)
  {
    var s := h + ":" + d;
    assert s[|s| - 1] == d[|d| - 1];
    assert !IsWhitespace(s[0]);
  }

  lemma LastColonBeforePort(h: string, d: string)
    requires AllDigits(d)
    ensures LastIndexOf(h + ":" + d, ':') == |h|
  {
    var s := h + ":" + d;
    assert s[|h|] == ':';
    assert forall k :: |h| < k < |s| ==> s[k] == d[k - |h| - 1];
  }

  /** No port is returned exactly when neither form matches the trimmed input,
      and the host is then the whole trimmed input. */
  lemma ParseNoPort(input: string)
    ensures ParseHostAndPort(input).port.None?
        <==> MatchBracketed(Trim(input)).None? && !HasPortSuffix(Trim(input))
    ensures ParseHostAndPort(input).port.None? ==> ParseHostAndPort(input).host == Trim(input)
  {
  }

  /** Without a colon there is no port. */
  lemma NoColonNoPort(input: string)
    requires ':' !in Trim(input)
    ensures ParseHostAndPort(input) == Parsed(Trim(input), None)
  {
    BracketedHasColon(Trim(input));
  }

  lemma BracketedHasColon(s: string)
    ensures MatchBracketed(s).Some? ==> ':' in s
  {
    if MatchBracketed(s).Some? {
      var h := MatchBracketed(s).value.0;
      assert s[|h| + 2] == ':';
    }
  }

  /** `"::1"` is not read as an IPv6 address: it splits into host `":"` and port 1. */
  lemma LoopbackWithoutBrackets(s: string)
    requires s == "::1"
    ensures ParseHostAndPort(s) == Parsed(":", Some(1))
  {
    ColonSplitExample(s, ":", "1");
    assert DigitsValue("1") == 1;
  }

  /** A bare IPv6 address ending in a digit group loses that group to the port. */
  lemma BareIpv6SplitsAtLastColon(s: string)
    requires s == "fe80::1"
    ensures ParseHostAndPort(s) == Parsed("fe80:", Some(1))
  {
    ColonSplitExample(s, "fe80:", "1");
    assert DigitsValue("1") == 1;
  }

  /** A space before the colon stays in the host. */
  lemma SpaceBeforeColonKept(s: string)
    requires s == "foo :80"
    ensures ParseHostAndPort(s) == Parsed("foo ", Some(80))
  {
    ColonSplitExample(s, "foo ", "80");
    HttpPort();
  }

  /** Five-digit ports above 65535 are accepted. */
  lemma PortAbove65535Accepted(s: string)
    requires s == "mc.example.com:99999"
    ensures ParseHostAndPort(s) == Parsed("mc.example.com", Some(99999))
  {
    ColonSplitExample(s, "mc.example.com", "99999");
    FiveNines();
  }

  /** The round trip, for a literal `s` spelled out as `h:d`. */
  lemma ColonSplitExample(s: string, h: string, d: string)
    requires h + ":" + d == s
    requires h == [] || (h[0] != '[' && !IsWhitespace(h[0]))
    requires IsPortDigits(d)
    ensures ParseHostAndPort(s) == Parsed(h, Some(DigitsValue(d)))
  {
    ParseRoundTrip(h, d);
  }

  lemma HttpPort()
    ensures DigitsValue("80") == 80
  {
    assert "80"[..1] == "8";
  }

  lemma FiveNines()
    ensures DigitsValue("99999") == 99999
  {
    assert "99999"[..4] == "9999" && "9999"[..3] == "999" && "999"[..2] == "99" && "99"[..1] == "9";
  }

  /** The bracketed loopback with a port. */
  lemma BracketedLoopback(s: string)
    requires s == "[::1]:25565"
    ensures ParseHostAndPort(s) == Parsed("::1", Some(25565))
  {
    assert "[" + "::1" + "]:" + "25565" == s;
    BracketedExample(s, "::1", "25565");
    MinecraftDefaultPort();
  }

  /** The bracketed form, for a literal `s` without surrounding whitespace. */
  lemma BracketedExample(s: string, h: string, d: string)
    requires Bare(s) && BracketForm(s, h, d)
    ensures ParseHostAndPort(s) == Parsed(h, Some(DigitsValue(d)))
  {
    ParseBare(s);
    MatchBracketedComplete(s, h, d);
  }

  lemma MinecraftDefaultPort()
    ensures DigitsValue("25565") == 25565
  {
    assert "25565"[..4] == "2556" && "2556"[..3] == "255" && "255"[..2] == "25" && "25"[..1] == "2";
  }
}
