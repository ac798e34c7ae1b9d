/** Concrete arguments of `_get_ips_list` and what the resolver makes of
    them, among them the calls of the unit tests in `tests/unit/test_cli.py`.
    Where a test expects something other than what the code does, the
    lemma states what the code does. Each example names its string through
    a parameter fixed by its precondition, and the facts about the literal
    text are kept in small lemmas of their own. */
module TargetResolverExamples {
  import opened Wrappers
  import opened StrOps
  import opened TargetResolver

  // ---------------------------------------------------------------------
  // Building blocks

  /** No whitespace and no comma anywhere. */
  predicate Plain(s: string) {
    forall i :: 0 <= i < |s| ==> !IsSpace(s[i]) && s[i] != ','
  }

  /** A plain string made of dot-free groups joined by dots has those
      groups and one dot fewer than groups. */
  lemma PlainGroups(addr: string, groups: seq<string>)
    requires |groups| >= 1 && forall i :: 0 <= i < |groups| ==> '.' !in groups[i]
    requires Plain(addr) && addr == Join(groups, '.')
    ensures Groups(addr) == groups
    ensures Count(addr, '.') == |groups| - 1
    ensures ' ' !in addr && ',' !in addr
  {
    StripNoSpace(addr);
    GroupsOf(addr, groups);
    SplitCount(addr, '.');
    assert IsSpace(' ');
  }

  /** A plain string of four valid octets joined by dots is accepted,
      with their values. */
  lemma PlainAccepted(addr: string, groups: seq<string>)
    requires |groups| == 4 && forall i :: 0 <= i < 4 ==> ValidOctet(groups[i])
    requires Plain(addr) && addr == Join(groups, '.')
    ensures ValidIpFormat(addr) && Groups(addr) == groups
    ensures Count(addr, '.') == 3 && ' ' !in addr && ',' !in addr
  {
    forall i | 0 <= i < 4 ensures '.' !in groups[i] {
      DigitsAvoid(groups[i], '.');
    }
    PlainGroups(addr, groups);
  }

  /** A plain string of four dot-free groups joined by dots, one of them
      not a valid octet, is rejected. */
  lemma PlainRejected(addr: string, groups: seq<string>, bad: nat)
    requires |groups| == 4 && bad < 4 && !ValidOctet(groups[bad])
    requires forall i :: 0 <= i < 4 ==> '.' !in groups[i]
    requires Plain(addr) && addr == Join(groups, '.')
    ensures !ValidIpFormat(addr)
    ensures Count(addr, '.') == 3 && ' ' !in addr && ',' !in addr
  {
    PlainGroups(addr, groups);
  }

  /** The canonical spelling of a value below 256 is a valid octet of
      that value. */
  lemma CanonicalOctet(g: string, n: nat)
    requires n < 256 && g == Decimal(n)
    ensures ValidOctet(g) && DecimalValue(g) == n
  {
  }

  /** A plain argument is a single token. */
  lemma OneToken(s: string)
    requires ' ' !in s && ',' !in s
    ensures Tokens(s) == [s]
  {
    TokensOf(s, [s]);
  }

  // ---------------------------------------------------------------------
  // Facts about the literal texts
  //
  // These lemmas state nothing about the program: each spells out what one
  // literal is (its decimal spellings, its groups joined by dots, its
  // strip). They take the literal through a parameter and stand on their
  // own so that the verifier evaluates each literal once, in a small
  // context, instead of inside every example that uses it.

  lemma Spellings()
    ensures Decimal(0) == "0" && Decimal(1) == "1" && Decimal(2) == "2" && Decimal(3) == "3"
    ensures Decimal(10) == "10" && Decimal(12) == "12" && Decimal(13) == "13" && Decimal(21) == "21" && Decimal(23) == "23"
  {
  }

  lemma Spellings112_123()
    ensures Decimal(112) == "112" && Decimal(123) == "123"
  {
  }

  lemma Spellings124_152()
    ensures Decimal(124) == "124" && Decimal(152) == "152"
  {
  }

  lemma Spellings200_245()
    ensures Decimal(200) == "200" && Decimal(245) == "245"
  {
  }

  lemma Text10_200_1_21(s: string)
    requires s == "10.200.1.21"
    ensures Plain(s) && s == Join(["10", "200", "1", "21"], '.')
  {
  }

  lemma Text13_12_12_123(s: string)
    requires s == "13.12.12.123"
    ensures Plain(s) && s == Join(["13", "12", "12", "123"], '.')
  {
  }

  lemma Text123_123_123_123(s: string)
    requires s == "123.123.123.123"
    ensures Plain(s) && s == Join(["123", "123", "123", "123"], '.')
  {
  }

  lemma Text123_123_123_124(s: string)
    requires s == "123.123.123.124"
    ensures Plain(s) && s == Join(["123", "123", "123", "124"], '.')
  {
  }

  lemma Text152_245_112_152(s: string)
    requires s == "152.245.112.152"
    ensures Plain(s) && s == Join(["152", "245", "112", "152"], '.')
  {
  }

  lemma Text333_200_1_21(s: string)
    requires s == "333.200.1.21"
    ensures Plain(s) && s == Join(["333", "200", "1", "21"], '.')
    ensures !ValidOctet("333")
  {
    assert "333"[..2] == "33" && "33"[..1] == "3" && "3"[..0] == "";
  }

  lemma Text1233_200_1_21(s: string)
    requires s == "1233.200.1.21"
    ensures Plain(s) && s == Join(["1233", "200", "1", "21"], '.')
    ensures !ValidOctet("1233")
  {
    assert "1233"[..3] == "123" && "123"[..2] == "12" && "12"[..1] == "1" && "1"[..0] == "";
  }

  lemma Text200_1_21(s: string)
    requires s == "200.1.21"
    ensures Plain(s) && s == Join(["200", "1", "21"], '.')
  {
  }

  lemma Text23_23_23_23(s: string)
    requires s == "23.23.23.23"
    ensures Plain(s) && s == Join(["23", "23", "23", "23"], '.')
  {
  }

  lemma Text1_2_3_256(s: string)
    requires s == "1.2.3.256"
    ensures Plain(s) && s == Join(["1", "2", "3", "256"], '.')
  {
  }

  lemma Text1_2__3(s: string)
    requires s == "1.2..3"
    ensures Plain(s) && s == Join(["1", "2", "", "3"], '.')
  {
  }

  lemma Text010_1_1_1(s: string)
    requires s == "010.1.1.1"
    ensures Plain(s) && s == Join(["010", "1", "1", "1"], '.')
  {
  }

  lemma Text10_1_1_1()
    ensures Join(["10", "1", "1", "1"], '.') == "10.1.1.1"
    ensures Join(["10", "0", "0", "1"], '.') == "10.0.0.1"
    ensures Join(["10", "0", "0", "2"], '.') == "10.0.0.2"
  {
  }

  lemma TextWrapped(s: string)
    requires s == " 10.1.1.1\t"
    ensures Strip(s) == "10.1.1.1"
  {
  }

  lemma TextTab(s: string)
    requires s == "10.0.0.1\t"
    ensures Strip(s) == "10.0.0.1" && ' ' !in s
  {
  }

  lemma TextNewline(s: string)
    requires s == "\n10.0.0.2"
    ensures Strip(s) == "10.0.0.2" && ' ' !in s
  {
  }

  // ---------------------------------------------------------------------
  // Verdicts on single addresses

  lemma Accepted10_200_1_21(s: string)
    requires s == "10.200.1.21"
    ensures ValidIpFormat(s) && Octets(s) == [10, 200, 1, 21]
    ensures ' ' !in s && ',' !in s
  {
    Spellings();
    Spellings200_245();
    CanonicalOctet("10", 10);
    CanonicalOctet("200", 200);
    CanonicalOctet("1", 1);
    CanonicalOctet("21", 21);
    Text10_200_1_21(s);
    PlainAccepted(s, ["10", "200", "1", "21"]);
  }

  lemma Accepted13_12_12_123(s: string)
    requires s == "13.12.12.123"
    ensures ValidIpFormat(s) && ' ' !in s && ',' !in s
  {
    Spellings();
    Spellings112_123();
    CanonicalOctet("13", 13);
    CanonicalOctet("12", 12);
    CanonicalOctet("123", 123);
    Text13_12_12_123(s);
    PlainAccepted(s, ["13", "12", "12", "123"]);
  }

  lemma Accepted123_123_123_x(s: string, last: string)
    requires last == "123" || last == "124"
    requires s == "123.123.123." + last
    ensures ValidIpFormat(s) && ' ' !in s && ',' !in s
  {
    Spellings112_123();
    Spellings124_152();
    CanonicalOctet("123", 123);
    CanonicalOctet("124", 124);
    if last == "123" {
      Text123_123_123_123(s);
    } else {
      Text123_123_123_124(s);
    }
    PlainAccepted(s, ["123", "123", "123", last]);
  }

  lemma Accepted152_245_112_152(s: string)
    requires s == "152.245.112.152"
    ensures ValidIpFormat(s) && ' ' !in s && ',' !in s
  {
    Spellings112_123();
    Spellings124_152();
    Spellings200_245();
    CanonicalOctet("152", 152);
    CanonicalOctet("245", 245);
    CanonicalOctet("112", 112);
    Text152_245_112_152(s);
    PlainAccepted(s, ["152", "245", "112", "152"]);
  }

  lemma Rejected333_200_1_21(s: string)
    requires s == "333.200.1.21"
    ensures !ValidIpFormat(s) && ' ' !in s && ',' !in s
  {
    Text333_200_1_21(s);
    PlainRejected(s, ["333", "200", "1", "21"], 0);
  }

  lemma Rejected1233_200_1_21(s: string)
    requires s == "1233.200.1.21"
    ensures !ValidIpFormat(s) && Count(s, '.') == 3 && ' ' !in s && ',' !in s
  {
    Text1233_200_1_21(s);
    PlainRejected(s, ["1233", "200", "1", "21"], 0);
  }

  // ---------------------------------------------------------------------
  // Whole arguments (tests/unit/test_cli.py:9-17)

  /** Line 9: no argument gives the sentinel 1 and one diagnostic. */
  lemma NoArgument()
    ensures Resolve(None) == Missing(1)
    ensures Published(Resolve(None)) == [MISSING_MESSAGE]
  {
    MissingIff(None);
  }

  /** Line 10: one valid address. */
  lemma SingleAddress(s: string)
    requires s == "10.200.1.21"
    ensures Resolve(Some(s)) == Targets([s], [])
  {
    Accepted10_200_1_21(s);
    OneToken(s);
    SingleToken(s, s);
  }

  /** Line 11: two comma-separated valid addresses, in order. */
  lemma TwoAddresses(s: string, a: string, b: string)
    requires a == "10.200.1.21" && b == "13.12.12.123" && s == a + "," + b
    ensures Resolve(Some(s)) == Targets([a, b], [])
  {
    Accepted10_200_1_21(a);
    Accepted13_12_12_123(b);
    assert Join([b], ',') == b;
    ResolveJoin([a, b]);
  }

  /** Line 12: a space does not separate addresses; the two fuse into one
      rejected token and nothing is returned, where the test expects both
      addresses. */
  lemma SpaceSeparatedPair(s: string, a: string, b: string)
    requires a == "123.123.123.123" && b == "123.123.123.124" && s == a + " " + b
    ensures Resolve(Some(s)) == Targets([], [a + b])
  {
    Accepted123_123_123_x(a, "123");
    Accepted123_123_123_x(b, "124");
    SpaceSeparatedFuse(a, b);
  }

  /** Line 13: the fused pair is rejected and the address after the comma
      kept, where the test expects all three. */
  lemma SpaceSeparatedPairThenComma(s: string, a: string, b: string, c: string)
    requires a == "123.123.123.123" && b == "123.123.123.124" && c == "152.245.112.152"
    requires s == a + " " + b + " , " + c
    ensures Resolve(Some(s)) == Targets([c], [a + b])
  {
    Accepted123_123_123_x(a, "123");
    Accepted123_123_123_x(b, "124");
    Accepted152_245_112_152(c);
    SpaceCommaThenValid(a, b, c);
  }

  /** Line 14: 333 is not an octet, so the address is rejected, where the
      test expects it to be returned. */
  lemma OctetAbove255(s: string)
    requires s == "333.200.1.21"
    ensures Resolve(Some(s)) == Targets([], [s])
  {
    Rejected333_200_1_21(s);
    OneToken(s);
    SingleToken(s, s);
  }

  /** Line 15: three groups are not an address. */
  lemma ThreeGroups(s: string)
    requires s == "200.1.21"
    ensures Resolve(Some(s)) == Targets([], [s])
  {
    Text200_1_21(s);
    PlainGroups(s, ["200", "1", "21"]);
    DotCountRejects(s);
    OneToken(s);
    SingleToken(s, s);
  }

  /** Line 16: a four-digit group is rejected. */
  lemma FourDigitGroup(s: string)
    requires s == "1233.200.1.21"
    ensures Resolve(Some(s)) == Targets([], [s])
  {
    Rejected1233_200_1_21(s);
    OneToken(s);
    SingleToken(s, s);
  }

  /** Line 17: the valid second address fuses with the invalid first one,
      so nothing is returned, where the test expects the second. */
  lemma InvalidThenSpaceThenValid(s: string, a: string, b: string)
    requires a == "1233.200.1.21" && b == "23.23.23.23" && s == a + " " + b
    ensures Resolve(Some(s)) == Targets([], [a + b])
  {
    Rejected1233_200_1_21(a);
    Plain23_23_23_23(b);
    SpaceJoinedRejected(a, b);
  }

  lemma Plain23_23_23_23(s: string)
    requires s == "23.23.23.23"
    ensures ' ' !in s && ',' !in s && Count(s, '.') == 3
  {
    Text23_23_23_23(s);
    PlainGroups(s, ["23", "23", "23", "23"]);
  }

  /** `int` reads leading zeros as decimal, so `010` is the octet 10. */
  lemma LeadingZerosAccepted(s: string)
    requires s == "010.1.1.1"
    ensures ValidIpFormat(s) && Octets(s) == [10, 1, 1, 1]
  {
    Spellings();
    CanonicalOctet("10", 10);
    CanonicalOctet("1", 1);
    LeadingZero("10");
    assert "0" + "10" == "010";
    Text010_1_1_1(s);
    PlainAccepted(s, ["010", "1", "1", "1"]);
  }

  /** An octet of 256 is out of range. */
  lemma OctetOutOfRange(s: string)
    requires s == "1.2.3.256"
    ensures !ValidIpFormat(s)
  {
    assert Decimal(256) == "256";
    Text1_2_3_256(s);
    PlainRejected(s, ["1", "2", "3", "256"], 3);
  }

  /** An empty group is not a number. */
  lemma EmptyGroup(s: string)
    requires s == "1.2..3"
    ensures !ValidIpFormat(s)
  {
    Text1_2__3(s);
    PlainRejected(s, ["1", "2", "", "3"], 2);
  }

  /** Surrounding whitespace is stripped before the check. */
  lemma SurroundingWhitespaceAccepted(s: string)
    requires s == " 10.1.1.1\t"
    ensures ValidIpFormat(s) && Octets(s) == [10, 1, 1, 1]
  {
    Spellings();
    CanonicalOctet("10", 10);
    CanonicalOctet("1", 1);
    TextWrapped(s);
    Text10_1_1_1();
    ValidIpFormatFromGroups(s, ["10", "1", "1", "1"]);
  }

  lemma AcceptedTab(a: string)
    requires a == "10.0.0.1\t"
    ensures ValidIpFormat(a) && ' ' !in a
  {
    Spellings();
    CanonicalOctet("10", 10);
    CanonicalOctet("0", 0);
    CanonicalOctet("1", 1);
    Text10_1_1_1();
    TextTab(a);
    ValidIpFormatFromGroups(a, ["10", "0", "0", "1"]);
  }

  lemma AcceptedNewline(b: string)
    requires b == "\n10.0.0.2"
    ensures ValidIpFormat(b) && ' ' !in b
  {
    Spellings();
    CanonicalOctet("10", 10);
    CanonicalOctet("0", 0);
    CanonicalOctet("2", 2);
    Text10_1_1_1();
    TextNewline(b);
    ValidIpFormatFromGroups(b, ["10", "0", "0", "2"]);
  }

  /** Tabs and newlines survive the space removal and stay in the returned
      tokens; `_valid_ip_format` strips them for its check only. */
  lemma OtherWhitespaceKept(s: string, a: string, b: string)
    requires a == "10.0.0.1\t" && b == "\n10.0.0.2" && s == a + "," + b
    ensures Resolve(Some(s)) == Targets([a, b], [])
  {
    AcceptedTab(a);
    AcceptedNewline(b);
    assert Join([b], ',') == b;
    ResolveJoin([a, b]);
  }
}
