/** The server's configuration record `MCPConfig`: validation of the
    transport name and the port, the defaults, the keyword arguments handed
    to the server's run call, the debugging representation, and the
    `load_config` entry point that reports every construction failure as a
    `ValueError` starting with "Configuration error: ". */
module Config {
  import opened Wrappers
  import Decimal

  // ---------------------------------------------------------------------
  // Transports
  // ---------------------------------------------------------------------

  /** `TransportType`: the transports the server supports. */
  datatype Transport = Stdio | StreamableHttp {
    /** The enum member's `.value`. */
    function Value(): (s: string)
      ensures s in ValidTransports()
    {
      match this
      case Stdio => "stdio"
      case StreamableHttp => "streamable-http"
    }
  }

  /** `{t.value for t in TransportType}`. */
  function ValidTransports(): set<string> {
    {"stdio", "streamable-http"}
  }

  /** The valid transport strings are exactly the enum's values. */
  lemma ValidTransportsAreValues()
    ensures forall s :: s in ValidTransports() <==> exists t: Transport :: t.Value() == s
  {
    forall s | s in ValidTransports() ensures exists t: Transport :: t.Value() == s {
      if s == "stdio" { assert Stdio.Value() == s; } else { assert StreamableHttp.Value() == s; }
    }
  }

  /** Pydantic's coercion of an accepted string into the enum field. */
  function TransportNamed(s: string): (t: Transport)
    requires s in ValidTransports()
    ensures t.Value() == s
  {
    if s == "stdio" then Stdio else StreamableHttp
  }

  /** Every valid transport string names exactly one member, and every
      member's value is a valid transport string. */
  lemma TransportNamedValue(t: Transport)
    ensures TransportNamed(t.Value()) == t
  {
  }

  // ---------------------------------------------------------------------
  // Normalisation: `v.lower().strip()`
  // ---------------------------------------------------------------------

  /** The characters Python's `str.isspace()` accepts, which `str.strip()`
      with no argument removes. */
  predicate IsSpace(c: char) {
    || '\t' <= c <= '\r'
    || '\U{1C}' <= c <= ' '
    || c == '\U{85}' || c == '\U{A0}' || c == '\U{1680}'
    || '\U{2000}' <= c <= '\U{200A}'
    || c == '\U{2028}' || c == '\U{2029}' || c == '\U{202F}'
    || c == '\U{205F}' || c == '\U{3000}'
  }

  /** Every character of `s` from index `lo` up to `hi` is whitespace. */
  predicate SpaceIn(s: string, lo: int, hi: int)
    requires 0 <= lo <= hi <= |s|
  {
    forall k :: lo <= k < hi ==> IsSpace(s[k])
  }

  predicate AllSpace(s: string) {
    SpaceIn(s, 0, |s|)
  }

  /** Neither end of `s` is whitespace. */
  predicate NoEdgeSpace(s: string) {
    s == [] || (!IsSpace(s[0]) && !IsSpace(s[|s| - 1]))
  }

  /** Lower-casing of one character (ASCII letters only). */
  function LowerChar(c: char): (d: char)
    ensures 'A' <= c <= 'Z' ==> d as int == c as int + 32
    ensures !('A' <= c <= 'Z') ==> d == c
    ensures IsSpace(d) <==> IsSpace(c)
  {
    if 'A' <= c <= 'Z' then (c as int - 'A' as int + 'a' as int) as char else c
  }

  /** `str.lower()` on ASCII letters. */
  function Lower(s: string): (r: string)
    ensures |r| == |s|
    ensures forall k :: 0 <= k < |s| ==> r[k] == LowerChar(s[k])
  {
    seq(|s|, k requires 0 <= k < |s| => LowerChar(s[k]))
  }

  /** Number of whitespace characters at the front of `s`. */
  function LeadingSpace(s: string): (n: nat)
    ensures n <= |s|
    ensures SpaceIn(s, 0, n)
    ensures n < |s| ==> !IsSpace(s[n])
  {
    if |s| > 0 && IsSpace(s[0]) then
      var n := 1 + LeadingSpace(s[1..]);
      assert forall k :: 1 <= k < n ==> s[k] == s[1..][k - 1];
      n
    else 0
  }

  /** Number of whitespace characters at the back of `s`. */
  function TrailingSpace(s: string): (n: nat)
    ensures n <= |s|
    ensures SpaceIn(s, |s| - n, |s|)
    ensures n < |s| ==> !IsSpace(s[|s| - 1 - n])
  {
    if |s| > 0 && IsSpace(s[|s| - 1]) then
      var n := 1 + TrailingSpace(s[..|s| - 1]);
      assert forall k :: |s| - n <= k < |s| - 1 ==> s[k] == s[..|s| - 1][k];
      n
    else 0
  }

  /** `r` is the slice `s[i..j]`, everything of `s` outside it is
      whitespace, and `r` has no whitespace at its ends. */
  ghost predicate StripsTo(s: string, r: string, i: int, j: int) {
    && 0 <= i <= j <= |s|
    && r == s[i..j]
    && SpaceIn(s, 0, i)
    && SpaceIn(s, j, |s|)
    && NoEdgeSpace(r)
  }

  /** `r` is `s` with its leading and trailing whitespace removed. */
  ghost predicate IsStripOf(s: string, r: string) {
    exists i, j :: StripsTo(s, r, i, j)
  }

  /** `str.strip()`. */
  function Strip(s: string): (r: string)
    ensures IsStripOf(s, r)
  {
    var i := LeadingSpace(s);
    var t := s[i..];
    var n := TrailingSpace(t);
    var j := |s| - n;
    assert SpaceIn(s, j, |s|) by {
      assert forall k :: j <= k < |s| ==> s[k] == t[k - i];
    }
    assert NoEdgeSpace(s[i..j]) by {
      if i < j {
        assert s[i..j][0] == s[i] && s[i..j][j - i - 1] == t[|t| - 1 - n];
      }
    }
    assert StripsTo(s, s[i..j], i, j);
    s[i..j]
  }

  /** At most one string is the stripped form of `s`. */
  lemma StripUnique(s: string, r1: string, r2: string)
    requires IsStripOf(s, r1) && IsStripOf(s, r2)
    ensures r1 == r2
  {
    var i1, j1 :| StripsTo(s, r1, i1, j1);
    var i2, j2 :| StripsTo(s, r2, i2, j2);
    if r1 != [] {
      assert !IsSpace(s[i1]) && !IsSpace(s[j1 - 1]);
    }
    if r2 != [] {
      assert !IsSpace(s[i2]) && !IsSpace(s[j2 - 1]);
    }
    if r1 != [] && r2 != [] {
      assert i1 == i2 && j1 == j2;
    }
  }

  /** A string without whitespace at its ends is its own stripped form. */
  lemma StripNoEdgeSpace(s: string)
    requires NoEdgeSpace(s)
    ensures Strip(s) == s
  {
    assert StripsTo(s, s, 0, |s|);
    StripUnique(s, s, Strip(s));
  }

  /** Whitespace added around a string does not survive `strip()`. */
  lemma StripPadded(w1: string, s: string, w2: string)
    requires AllSpace(w1) && AllSpace(w2)
    ensures Strip(w1 + s + w2) == Strip(s)
  {
    var r := Strip(s);
    var i, j :| StripsTo(s, r, i, j);
    var p := w1 + s + w2;
    var i', j' := |w1| + i, |w1| + j;
    assert p[i'..j'] == r by {
      assert forall k :: 0 <= k < |s| ==> p[|w1| + k] == s[k];
    }
    forall k | 0 <= k < i' ensures IsSpace(p[k]) {
      if k < |w1| { assert p[k] == w1[k]; } else { assert p[k] == s[k - |w1|]; }
    }
    forall k | j' <= k < |p| ensures IsSpace(p[k]) {
      if k < |w1| + |s| { assert p[k] == s[k - |w1|]; } else { assert p[k] == w2[k - |w1| - |s|]; }
    }
    assert StripsTo(p, r, i', j');
    StripUnique(p, r, Strip(p));
  }

  /** Lower-casing and stripping commute, so the order in which the source
      applies them does not matter. */
  lemma LowerStripCommute(s: string)
    ensures Strip(Lower(s)) == Lower(Strip(s))
  {
    LowerKeepsStrip(s, Strip(s));
    StripUnique(Lower(s), Lower(Strip(s)), Strip(Lower(s)));
  }

  /** Lower-casing a string and its stripped form keeps the relation. */
  lemma LowerKeepsStrip(s: string, r: string)
    requires IsStripOf(s, r)
    ensures IsStripOf(Lower(s), Lower(r))
  {
    var i, j :| StripsTo(s, r, i, j);
    LowerSlice(s, i, j);
    LowerKeepsSpace(s, 0, i);
    LowerKeepsSpace(s, j, |s|);
    LowerKeepsEdges(r);
    assert StripsTo(Lower(s), Lower(r), i, j);
  }

  /** Lower-casing commutes with slicing. */
  lemma LowerSlice(s: string, i: int, j: int)
    requires 0 <= i <= j <= |s|
    ensures Lower(s[i..j]) == Lower(s)[i..j]
  {
    var a, b := Lower(s[i..j]), Lower(s)[i..j];
    forall k | 0 <= k < |a| ensures a[k] == b[k] {
      assert s[i..j][k] == s[i + k];
    }
  }

  /** Lower-casing keeps whitespace where it was. */
  lemma LowerKeepsSpace(s: string, lo: int, hi: int)
    requires 0 <= lo <= hi <= |s|
    requires SpaceIn(s, lo, hi)
    ensures SpaceIn(Lower(s), lo, hi)
  {
    forall k | lo <= k < hi ensures IsSpace(Lower(s)[k]) {
      assert IsSpace(s[k]);
    }
  }

  /** Lower-casing adds no whitespace at the ends. */
  lemma LowerKeepsEdges(r: string)
    requires NoEdgeSpace(r)
    ensures NoEdgeSpace(Lower(r))
  {
  }

  /** Stripping a lower-case string leaves a lower-case string. */
  lemma StripKeepsLowerCase(l: string)
    requires forall k :: 0 <= k < |l| ==> LowerChar(l[k]) == l[k]
    ensures forall k :: 0 <= k < |Strip(l)| ==> LowerChar(Strip(l)[k]) == Strip(l)[k]
  {
    var n := Strip(l);
    var i, j :| StripsTo(l, n, i, j);
    forall k | 0 <= k < |n| ensures LowerChar(n[k]) == n[k] {
      assert n[k] == l[i + k];
    }
  }

  /** `v.lower().strip()`, the normalisation `validate_transport` applies:
      its result is the stripped form of the lower-cased input, so it is
      lower-case, has no whitespace at its ends, and is no longer than its
      input. */
  function Normalize(s: string): (r: string)
    ensures IsStripOf(Lower(s), r)
    ensures forall k :: 0 <= k < |r| ==> LowerChar(r[k]) == r[k]
    ensures NoEdgeSpace(r)
    ensures |r| <= |s|
  {
    StripKeepsLowerCase(Lower(s));
    Strip(Lower(s))
  }

  /** A string that is already lower-case and has no whitespace at its ends
      is left unchanged by the normalisation. */
  lemma NormalizeFixpoint(s: string)
    requires forall k :: 0 <= k < |s| ==> LowerChar(s[k]) == s[k]
    requires NoEdgeSpace(s)
    ensures Normalize(s) == s
  {
    assert Lower(s) == s;
    StripNoEdgeSpace(s);
  }

  /** Normalising twice is normalising once. */
  lemma NormalizeIdempotent(s: string)
    ensures Normalize(Normalize(s)) == Normalize(s)
  {
    NormalizeFixpoint(Normalize(s));
  }

  /** Whitespace around a transport name is ignored. */
  lemma NormalizeIgnoresPadding(w1: string, s: string, w2: string)
    requires AllSpace(w1) && AllSpace(w2)
    ensures Normalize(w1 + s + w2) == Normalize(s)
  {
    var lw1, ls, lw2 := Lower(w1), Lower(s), Lower(w2);
    assert Lower(w1 + s + w2) == lw1 + ls + lw2;
    StripPadded(lw1, ls, lw2);
  }

  /** The canonical transport strings are already normalised. */
  lemma NormalizeTransportValue(t: Transport)
    ensures Normalize(t.Value()) == t.Value()
  {
    var v := t.Value();
    assert Lower(v) == v;
    StripNoEdgeSpace(v);
  }

  // ---------------------------------------------------------------------
  // Field validation
  // ---------------------------------------------------------------------

  /** What the transport validator receives: a raw string (from the
      environment or a keyword argument) or an enum member. */
  datatype TransportInput = Text(s: string) | Member(t: Transport)

  /** One failed field of a construction, as pydantic collects them. */
  datatype FieldError =
    | InvalidTransport(normalized: string)   // the `ValueError` of the validator
    | PortBelowMinimum(port: int)            // the `ge=1` bound
    | PortAboveMaximum(port: int)            // the `le=65535` bound

  /** The set of valid transports as the error message renders it.  Python
      prints a set of strings in an order that depends on its hash seed; the
      model fixes one of the two orders. */
  const TransportSetText := "{'stdio', 'streamable-http'}"

  /** The fixed opening of the message for a rejected transport. */
  const TransportErrorHead := "Invalid transport: '"

  /** What follows the rejected value: the closing quote and the valid set. */
  const TransportErrorTail := "'. Must be one of " + TransportSetText

  /** Pydantic's wording for a port below the `ge` bound, before the bound. */
  const PortBelowHead := "Input should be greater than or equal to "

  /** Pydantic's wording for a port above the `le` bound, before the bound. */
  const PortAboveHead := "Input should be less than or equal to "

  /** The text a field error reports. A rejected transport is quoted
      between the fixed opening and the list of valid transports; a port
      error is pydantic's wording followed by the decimal bound it violates.
      Each message consists of exactly those parts. */
  function FieldMessage(e: FieldError): (m: string)
    ensures e.InvalidTransport? ==>
      && |m| == |TransportErrorHead| + |e.normalized| + |TransportErrorTail|
      && OccursAt(m, TransportErrorHead, 0)
      && OccursAt(m, e.normalized, |TransportErrorHead|)
      && OccursAt(m, TransportErrorTail, |TransportErrorHead| + |e.normalized|)
    ensures e.PortBelowMinimum? ==>
      && |m| == |PortBelowHead| + |Decimal.FromNat(MinPort)|
      && OccursAt(m, PortBelowHead, 0)
      && OccursAt(m, Decimal.FromNat(MinPort), |PortBelowHead|)
    ensures e.PortAboveMaximum? ==>
      && |m| == |PortAboveHead| + |Decimal.FromNat(MaxPort)|
      && OccursAt(m, PortAboveHead, 0)
      && OccursAt(m, Decimal.FromNat(MaxPort), |PortAboveHead|)
    ensures e.PortBelowMinimum? ==>
      |Decimal.FromNat(MinPort)| <= |m|
      && OccursAt(m, Decimal.FromNat(MinPort), |m| - |Decimal.FromNat(MinPort)|)
    ensures e.PortAboveMaximum? ==>
      |Decimal.FromNat(MaxPort)| <= |m|
      && OccursAt(m, Decimal.FromNat(MaxPort), |m| - |Decimal.FromNat(MaxPort)|)
  {
    match e
    case InvalidTransport(v) =>
      ConcatParts(TransportErrorHead, v, TransportErrorTail);
      TransportErrorHead + v + TransportErrorTail
    case PortBelowMinimum(_) =>
      assert Decimal.FromNat(MinPort) == "1";
      ConcatParts(PortBelowHead, "1", "");
      PortBelowHead + "1" + ""
    case PortAboveMaximum(_) =>
      PortMaximumDigits();
      ConcatParts(PortAboveHead, "65535", "");
      PortAboveHead + "65535" + ""
  }

  /** The decimal rendering of the largest port. */
  lemma PortMaximumDigits()
    ensures Decimal.FromNat(MaxPort) == "65535"
  {
    assert Decimal.FromNat(6) == "6";
    assert Decimal.FromNat(65) == "65";
    assert Decimal.FromNat(655) == "655";
    assert Decimal.FromNat(6553) == "6553";
  }


  /** `sub` occurs in `s` at offset `k`. */
  predicate OccursAt(s: string, sub: string, k: nat) {
    k + |sub| <= |s| && s[k..k + |sub|] == sub
  }

  /** A string occurs in a concatenation right after what precedes it. */
  lemma OccursInMiddle(a: string, v: string, b: string)
    ensures OccursAt(a + v + b, v, |a|)
  {
    assert (a + v + b)[|a|..|a| + |v|] == v;
  }

  /** A concatenation of three parts consists of exactly those parts, in
      order. */
  lemma ConcatParts(a: string, b: string, c: string)
    ensures |a + b + c| == |a| + |b| + |c|
    ensures OccursAt(a + b + c, a, 0)
    ensures OccursAt(a + b + c, b, |a|)
    ensures OccursAt(a + b + c, c, |a| + |b|)
  {
    OccursAtStart(a, b, c);
    OccursInMiddle(a, b, c);
    assert (a + b + c)[|a| + |b|..|a| + |b| + |c|] == c;
  }

  /** An occurrence in `s` is an occurrence in `s + t`. */
  lemma OccursBeforeSuffix(s: string, t: string, v: string, k: nat)
    requires OccursAt(s, v, k)
    ensures OccursAt(s + t, v, k)
  {
    assert (s + t)[k..k + |v|] == s[k..k + |v|];
  }

  /** An occurrence in the part of `d` after `p` is an occurrence in `d`. */
  lemma OccursInSuffix(d: string, p: string, s: string, v: string, k: nat)
    requires d == p + s
    requires OccursAt(s, v, k)
    ensures OccursAt(d, v, |p| + k)
  {
    OccursAfterPrefix(p, s, v, k);
  }

  /** A string occurs at the start of a concatenation it begins. */
  lemma OccursAtStart(a: string, b: string, c: string)
    ensures OccursAt(a + b + c, a, 0)
  {
    assert (a + b + c)[0..|a|] == a;
  }

  /** An occurrence in `s` is an occurrence in `p + s`, shifted by `|p|`. */
  lemma OccursAfterPrefix(p: string, s: string, v: string, k: nat)
    requires OccursAt(s, v, k)
    ensures OccursAt(p + s, v, |p| + k)
  {
    assert (p + s)[|p| + k..|p| + k + |v|] == s[k..k + |v|];
  }

  /** `MCPConfig.validate_transport`: an enum member is returned as its
      value; a string is lower-cased and stripped, then accepted only when
      it is one of the valid transports. */
  function ValidateTransport(v: TransportInput): (r: Result<string, FieldError>)
    ensures r.Success? ==> r.value in ValidTransports()
    ensures r.Failure? ==> v.Text? && r.error == InvalidTransport(Normalize(v.s))
    ensures v.Member? ==> r == Success(v.t.Value())
    ensures v.Text? ==> (r.Success? <==> Normalize(v.s) in ValidTransports())
    ensures v.Text? && r.Success? ==> r.value == Normalize(v.s)
  {
    match v
    case Member(t) => Success(t.Value())
    case Text(s) =>
      var n := Normalize(s);
      if n in ValidTransports() then Success(n) else Failure(InvalidTransport(n))
  }

  /** Validation is idempotent: an accepted result, given back to the
      validator as a string, is accepted unchanged. */
  lemma ValidateTransportIdempotent(v: TransportInput)
    requires ValidateTransport(v).Success?
    ensures ValidateTransport(Text(ValidateTransport(v).value)) == ValidateTransport(v)
  {
    var s := ValidateTransport(v).value;
    NormalizeTransportValue(TransportNamed(s));
  }

  /** Validation depends on a string only through its normalised form: the
      spelling's case and the whitespace around it never matter. */
  lemma ValidateTransportCaseAndPadding(w1: string, s: string, w2: string)
    requires AllSpace(w1) && AllSpace(w2)
    ensures ValidateTransport(Text(w1 + s + w2)) == ValidateTransport(Text(Lower(s)))
  {
    NormalizeIgnoresPadding(w1, s, w2);
    assert Lower(Lower(s)) == Lower(s);
  }

  /** The canonical spellings are accepted as they are. */
  lemma ValidateTransportCanonical(t: Transport)
    ensures ValidateTransport(Text(t.Value())) == Success(t.Value())
  {
    NormalizeTransportValue(t);
  }

  /** Upper case is accepted: "STDIO" is "stdio". */
  lemma ValidateTransportUpperCase()
    ensures ValidateTransport(Text("STDIO")) == Success("stdio")
  {
    var u := "STDIO";
    assert Lower(u) == "stdio" by {
      assert Lower(u)[0] == 's' && Lower(u)[1] == 't' && Lower(u)[2] == 'd';
      assert Lower(u)[3] == 'i' && Lower(u)[4] == 'o';
    }
    StripNoEdgeSpace("stdio");
  }

  /** Surrounding whitespace is accepted: "  stdio  " is "stdio". */
  lemma ValidateTransportPadded()
    ensures ValidateTransport(Text("  stdio  ")) == Success("stdio")
  {
    assert "  stdio  " == "  " + "stdio" + "  ";
    NormalizeIgnoresPadding("  ", "stdio", "  ");
    NormalizeTransportValue(Stdio);
  }

  /** An unknown name is rejected and reported as it was given. */
  lemma ValidateTransportUnknown()
    ensures ValidateTransport(Text("invalid-transport")) == Failure(InvalidTransport("invalid-transport"))
  {
    var bad := "invalid-transport";
    forall k | 0 <= k < |bad| ensures LowerChar(bad[k]) == bad[k] {
    }
    NormalizeFixpoint(bad);
  }

  const MinPort := 1
  const MaxPort := 65535

  /** The `ge=1, le=65535` bounds of `mcp_port`. */
  predicate ValidPort(p: int) {
    MinPort <= p <= MaxPort
  }

  /** Pydantic's check of the port bounds, lower bound first. */
  function ValidatePort(p: int): (r: Result<int, FieldError>)
    ensures r.Success? <==> ValidPort(p)
    ensures r.Success? ==> r.value == p
    ensures r.Failure? ==> r.error == (if p < MinPort then PortBelowMinimum(p) else PortAboveMaximum(p))
  {
    if p < MinPort then Failure(PortBelowMinimum(p))
    else if p > MaxPort then Failure(PortAboveMaximum(p))
    else Success(p)
  }

  // ---------------------------------------------------------------------
  // The configuration record
  // ---------------------------------------------------------------------

  datatype MCPConfig = MCPConfig(transport: Transport, host: string, port: int)

  const DefaultTransport := StreamableHttp
  const DefaultHost := "0.0.0.0"
  const DefaultPort := 8000

  /** A configuration that exists: its port is in range (its transport is
      valid by its type, its host is any string). */
  type Config = c: MCPConfig | ValidPort(c.port)
    witness MCPConfig(StreamableHttp, "0.0.0.0", 8000)

  /** The values supplied for each field (from keyword arguments, the
      environment or `.env`); `None` means the field's default is used. */
  datatype Settings = Settings(transport: Option<TransportInput>, host: Option<string>, port: Option<int>)

  /** The transport field's value after validation: the supplied value,
      or the default enum member. */
  function TransportResult(src: Settings): Result<string, FieldError> {
    ValidateTransport(src.transport.GetOr(Member(DefaultTransport)))
  }

  /** The port field's value after its bounds check: the supplied value, or
      the default port. */
  function PortResult(src: Settings): Result<int, FieldError> {
    ValidatePort(src.port.GetOr(DefaultPort))
  }

  function ErrorsOf<T>(r: Result<T, FieldError>): seq<FieldError> {
    if r.Success? then [] else [r.error]
  }

  /** Construction of `MCPConfig`: defaults fill the fields not supplied,
      every field value (a default included, since `BaseSettings`
      validates defaults) runs through its validator, and the construction
      fails with every field error, in field order, when any field is
      invalid. */
  function NewConfig(src: Settings): (r: Result<Config, seq<FieldError>>)
    ensures r.Success? <==>
      (src.transport.None? || ValidateTransport(src.transport.value).Success?)
      && (src.port.None? || ValidPort(src.port.value))
    ensures r.Success? ==> r.value.host == src.host.GetOr(DefaultHost)
    ensures r.Success? ==> r.value.port == src.port.GetOr(DefaultPort)
    ensures r.Success? && src.transport.None? ==> r.value.transport == DefaultTransport
    ensures r.Success? && src.transport.Some? ==>
      r.value.transport.Value() == ValidateTransport(src.transport.value).value
    ensures r.Failure? ==> 1 <= |r.error| <= 2
    ensures r.Failure? ==>
      |r.error| == (if TransportResult(src).Failure? then 1 else 0) + (if PortResult(src).Failure? then 1 else 0)
    ensures r.Failure? && src.transport.Some? && ValidateTransport(src.transport.value).Failure? ==>
      r.error[0] == ValidateTransport(src.transport.value).error
    ensures r.Failure? && src.port.Some? && !ValidPort(src.port.value) ==>
      r.error[|r.error| - 1] == ValidatePort(src.port.value).error
  {
    var t := TransportResult(src);
    var p := PortResult(src);
    if t.Success? && p.Success? then
      Success(MCPConfig(TransportNamed(t.value), src.host.GetOr(DefaultHost), p.value))
    else
      Failure(ErrorsOf(t) + ErrorsOf(p))
  }

  /** `MCPConfig()` with nothing supplied. */
  lemma DefaultConfig()
    ensures NewConfig(Settings(None, None, None)) == Success(MCPConfig(StreamableHttp, "0.0.0.0", 8000))
  {
  }

  /** The port bounds are inclusive: 1 and 65535 are accepted, 0 and 65536
      are rejected. */
  lemma PortBoundaries()
    ensures NewConfig(Settings(None, None, Some(1))).Success?
    ensures NewConfig(Settings(None, None, Some(65535))).Success?
    ensures NewConfig(Settings(None, None, Some(0))) == Failure([PortBelowMinimum(0)])
    ensures NewConfig(Settings(None, None, Some(65536))) == Failure([PortAboveMaximum(65536)])
  {
    assert [] + [PortBelowMinimum(0)] == [PortBelowMinimum(0)];
    assert [] + [PortAboveMaximum(65536)] == [PortAboveMaximum(65536)];
  }

  // ---------------------------------------------------------------------
  // Run parameters and representation
  // ---------------------------------------------------------------------

  /** A keyword argument's value: `str | int`. */
  datatype RunValue = Str(s: string) | Int(i: int)

  /** `MCPConfig.to_run_config`: `stdio` takes only the transport; every
      other transport also takes the host and the port. */
  function ToRunConfig(c: Config): (m: map<string, RunValue>)
    ensures "transport" in m && m["transport"] == Str(c.transport.Value())
    ensures c.transport == Stdio ==> m.Keys == {"transport"}
    ensures c.transport != Stdio ==>
      m.Keys == {"transport", "host", "port"} && m["host"] == Str(c.host) && m["port"] == Int(c.port)
  {
    if c.transport.Value() == Stdio.Value() then
      map["transport" := Str(c.transport.Value())]
    else
      map["transport" := Str(c.transport.Value()), "host" := Str(c.host), "port" := Int(c.port)]
  }

  /** The run parameters determine the transport, and for every transport
      but `stdio` also the host and the port; for `stdio` the host and the
      port make no difference. */
  lemma ToRunConfigDistinguishes(c1: Config, c2: Config)
    ensures ToRunConfig(c1) == ToRunConfig(c2) <==>
      c1.transport == c2.transport && (c1.transport == Stdio || (c1.host == c2.host && c1.port == c2.port))
  {
  }

  /** The transport handed to the run call is accepted again by the
      validator and names the configuration's own transport. */
  lemma ToRunConfigTransportRoundTrip(c: Config)
    ensures ValidateTransport(Text(ToRunConfig(c)["transport"].s)) == Success(c.transport.Value())
    ensures TransportNamed(ToRunConfig(c)["transport"].s) == c.transport
  {
    NormalizeTransportValue(c.transport);
    TransportNamedValue(c.transport);
  }

  /** `sub` occurs somewhere in `s`. */
  ghost predicate Contains(s: string, sub: string) {
    exists k: nat :: OccursAt(s, sub, k)
  }

  /** `MCPConfig.__repr__`. */
  function Repr(c: Config): (r: string)
    ensures OccursAt(r, "MCPConfig", 0)
    ensures Contains(r, c.transport.Value())
    ensures Contains(r, c.host)
    ensures Contains(r, Decimal.FromNat(c.port))
  {
    var v, h, p := c.transport.Value(), c.host, Decimal.FromNat(c.port);
    var a, tail := "MCPConfig(transport=", ", port=" + p + ")";
    var b := ", host=" + h + tail;
    OccursInMiddle(a, v, b);
    OccursInMiddle(", host=", h, tail);
    OccursAfterPrefix(a + v, b, h, 7);
    OccursInMiddle(", port=", p, ")");
    OccursAfterPrefix(", host=" + h, tail, p, 7);
    OccursAfterPrefix(a + v, b, p, |", host=" + h| + 7);
    assert OccursAt(a + v + b, "MCPConfig", 0);
    a + v + b
  }

  // ---------------------------------------------------------------------
  // load_config
  // ---------------------------------------------------------------------

  const ErrorPrefix := "Configuration error: "

  /** Lines joined with line breaks between them. */
  function JoinLines(lines: seq<string>): string {
    if lines == [] then ""
    else if |lines| == 1 then lines[0]
    else lines[0] + "\n" + JoinLines(lines[1..])
  }

  /** Several lines join as the first, a line break, and the rest joined. */
  lemma JoinLinesSplits(lines: seq<string>)
    requires |lines| > 1
    ensures JoinLines(lines) == lines[0] + "\n" + JoinLines(lines[1..])
  {
    assert lines != [] && |lines| != 1;
  }

  /** The joined text starts with the first line. */
  lemma JoinLinesStartsWithFirst(lines: seq<string>)
    requires lines != []
    ensures OccursAt(JoinLines(lines), lines[0], 0)
  {
    if |lines| > 1 {
      JoinLinesSplits(lines);
      OccursAtStart(lines[0], "\n", JoinLines(lines[1..]));
    } else {
      assert lines[0][0..|lines[0]|] == lines[0];
    }
  }

  /** Where the `k`-th line starts in the joined text: every line is kept. */
  function LineOffset(lines: seq<string>, k: nat): (off: nat)
    requires k < |lines|
    ensures OccursAt(JoinLines(lines), lines[k], off)
    decreases k
  {
    if k == 0 then
      JoinLinesStartsWithFirst(lines);
      0
    else
      var tail, p := lines[1..], lines[0] + "\n";
      assert tail[k - 1] == lines[k];
      var j := LineOffset(tail, k - 1);
      JoinLinesSplits(lines);
      OccursInSuffix(JoinLines(lines), p, JoinLines(tail), lines[k], j);
      |p| + j
  }

  /** The field errors' messages, in order. */
  function Messages(errors: seq<FieldError>): seq<string> {
    seq(|errors|, k requires 0 <= k < |errors| => FieldMessage(errors[k]))
  }

  /** `str(e)` of the construction failure: each field's message, one per
      line; it is empty exactly when there are no errors. */
  function Describe(errors: seq<FieldError>): (r: string)
    ensures r == "" <==> errors == []
  {
    var lines := Messages(errors);
    if errors == [] then ""
    else
      JoinLinesStartsWithFirst(lines);
      JoinLines(lines)
  }

  /** Where the `k`-th field error's message starts in the description:
      every field error is reported. */
  function MessageOffset(errors: seq<FieldError>, k: nat): (off: nat)
    requires k < |errors|
    ensures OccursAt(Describe(errors), FieldMessage(errors[k]), off)
  {
    LineOffset(Messages(errors), k)
  }

  /** The `ValueError` `load_config` raises, with the failure it wraps. */
  datatype LoadError = ConfigurationError(message: string, cause: seq<FieldError>)

  /** `load_config`: the constructed configuration, or a `ValueError` whose
      message is the prefix followed by the construction failure's text. */
  function LoadConfig(src: Settings): (r: Result<Config, LoadError>)
    ensures r.Success? <==> NewConfig(src).Success?
    ensures r.Success? ==> r.value == NewConfig(src).value
    ensures r.Failure? ==> r.error.cause == NewConfig(src).error
    ensures r.Failure? ==> r.error.message == ErrorPrefix + Describe(r.error.cause)
    ensures r.Failure? ==> OccursAt(r.error.message, ErrorPrefix, 0)
  {
    match NewConfig(src)
    case Success(c) => Success(c)
    case Failure(errors) => Failure(ConfigurationError(ErrorPrefix + Describe(errors), errors))
  }

  /** An unknown transport in the environment makes `load_config` raise
      with that one error, and the message quotes the normalised value. */
  lemma LoadConfigInvalidTransport(v: TransportInput)
    requires ValidateTransport(v).Failure?
    ensures var r := LoadConfig(Settings(Some(v), None, None));
      && r.Failure?
      && r.error.cause == [ValidateTransport(v).error]
      && OccursAt(r.error.message, ValidateTransport(v).error.normalized, |ErrorPrefix| + |TransportErrorHead|)
  {
    var e := ValidateTransport(v).error;
    var src := Settings(Some(v), None, None);
    assert NewConfig(src) == Failure([e]) by {
      assert TransportResult(src) == Failure(e);
      assert [e] + [] == [e];
    }
    assert Messages([e]) == [FieldMessage(e)];
    OccursAfterPrefix(ErrorPrefix, FieldMessage(e), e.normalized, |TransportErrorHead|);
  }

}
