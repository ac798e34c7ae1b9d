/**
  The target resolver of the valkiria CLI: `_valid_ip_format` and
  `_get_ips_list` (dcos_valkiria/cli.py). The `--ips` argument loses every
  space character, is split on commas, and each token is kept verbatim when
  it passes a permissive dotted-quad test; every rejected token publishes
  one diagnostic. An absent or empty argument publishes one diagnostic and
  yields the sentinel 1.
 */
module TargetResolver {
  import opened Wrappers
  import opened StrOps

  /** What `_get_ips_list` returns for an absent or empty argument. */
  const MISSING_CODE: int := 1
  const MISSING_MESSAGE: string := "--ips requires argument"

  /** The diagnostic published for a rejected token. */
  function InvalidMessage(token: string): string {
    "[[" + token + "]] is a not valid ip format."
  }

  // ---------------------------------------------------------------------
  // _valid_ip_format

  /** One group of a dotted quad: `octet.isdigit() and int(octet) < 256`. */
  predicate ValidOctet(g: string) {
    IsDigits(g) && DecimalValue(g) < 256
  }

  /** `addr.strip().split(".")` */
  function Groups(addr: string): seq<string> {
    Split(Strip(addr), '.')
  }

  /** `_valid_ip_format(addr)`: exactly four groups, each a valid octet.
      Leading zeros and surrounding whitespace are accepted. */
  predicate ValidIpFormat(addr: string) {
    var groups := Groups(addr);
    |groups| == 4 && forall i :: 0 <= i < 4 ==> ValidOctet(groups[i])
  }

  /** The four values of an accepted address. */
  function Octets(addr: string): (q: seq<nat>)
    requires ValidIpFormat(addr)
    ensures |q| == 4
    ensures forall i :: 0 <= i < 4 ==> q[i] < 256
  {
    var groups := Groups(addr);
    [DecimalValue(groups[0]), DecimalValue(groups[1]), DecimalValue(groups[2]), DecimalValue(groups[3])]
  }

  /** The canonical spelling of a dotted quad. */
  function Dotted(q: seq<nat>): string
    requires |q| == 4
  {
    Join([Decimal(q[0]), Decimal(q[1]), Decimal(q[2]), Decimal(q[3])], '.')
  }

  lemma DigitsAvoid(g: string, c: char)
    requires IsDigits(g) && !IsDigit(c)
    ensures c !in g
  {
  }

  /** An accepted address is, after stripping, four octets joined by dots;
      so it has exactly three dots and no comma. */
  lemma ValidIpFormatShape(addr: string)
    requires ValidIpFormat(addr)
    ensures Strip(addr) == Join(Groups(addr), '.')
    ensures Count(addr, '.') == 3
    ensures ',' !in addr
  {
    var groups := Groups(addr);
    JoinSplit(Strip(addr), '.');
    SplitCount(Strip(addr), '.');
    forall i | 0 <= i < |groups| ensures ',' !in groups[i] {
      DigitsAvoid(groups[i], ',');
    }
    JoinAvoids(groups, '.', ',');
    StripCount(addr, ',');
    StripCount(addr, '.');
  }

  /** Conversely, whatever strips to four valid octets joined by dots is
      accepted, and those are its groups. */
  lemma ValidIpFormatFromGroups(addr: string, groups: seq<string>)
    requires |groups| == 4 && forall i :: 0 <= i < 4 ==> ValidOctet(groups[i])
    requires Strip(addr) == Join(groups, '.')
    ensures Groups(addr) == groups
    ensures ValidIpFormat(addr)
  {
    forall i | 0 <= i < 4 ensures '.' !in groups[i] {
      DigitsAvoid(groups[i], '.');
    }
    SplitJoin(groups, '.');
  }

  /** The groups of an address, given a stripped form known to join them. */
  lemma GroupsOf(addr: string, groups: seq<string>)
    requires |groups| >= 1 && forall i :: 0 <= i < |groups| ==> '.' !in groups[i]
    requires Strip(addr) == Join(groups, '.')
    ensures Groups(addr) == groups
  {
    SplitJoin(groups, '.');
  }

  /** The empty token has one group, so it is rejected. */
  lemma EmptyRejected()
    ensures !ValidIpFormat("")
  {
  }

  /** Every dotted quad with octets in [0, 255], spelt canonically, is
      accepted and reads back as the same four values. */
  lemma {:induction false} DottedAccepted(q: seq<nat>)
    requires |q| == 4 && forall i :: 0 <= i < 4 ==> q[i] < 256
    ensures ValidIpFormat(Dotted(q))
    ensures Octets(Dotted(q)) == q
  {
    var groups := [Decimal(q[0]), Decimal(q[1]), Decimal(q[2]), Decimal(q[3])];
    var s := Dotted(q);
    forall c | IsSpace(c) ensures c !in s {
      forall i | 0 <= i < 4 ensures c !in groups[i] {
        DigitsAvoid(groups[i], c);
      }
      JoinAvoids(groups, '.', c);
    }
    StripNoSpace(s);
    ValidIpFormatFromGroups(s, groups);
  }

  // ---------------------------------------------------------------------
  // _get_ips_list

  /** `ips.replace(" ", "").split(",")`: only the space character is
      deleted; tabs and newlines stay in the tokens. */
  function Tokens(ips: string): seq<string> {
    Split(Delete(ips, ' '), ',')
  }

  /** There is one token more than there are commas, joining the tokens
      with commas gives back the argument minus its spaces, and no token
      holds a space or a comma. */
  lemma TokensShape(ips: string)
    ensures |Tokens(ips)| == Count(ips, ',') + 1
    ensures Join(Tokens(ips), ',') == Delete(ips, ' ')
    ensures forall i :: 0 <= i < |Tokens(ips)| ==> ' ' !in Tokens(ips)[i] && ',' !in Tokens(ips)[i]
  {
    DeleteCount(ips, ' ', ',');
    SplitCount(Delete(ips, ' '), ',');
    SplitPieces(Delete(ips, ' '), ',');
    JoinSplit(Delete(ips, ' '), ',');
    SplitAvoids(Delete(ips, ' '), ',', ' ');
  }

  /** The tokens of an argument, given a space-free form known to join them. */
  lemma TokensOf(ips: string, ts: seq<string>)
    requires |ts| >= 1 && forall i :: 0 <= i < |ts| ==> ',' !in ts[i]
    requires Delete(ips, ' ') == Join(ts, ',')
    ensures Tokens(ips) == ts
  {
    SplitJoin(ts, ',');
  }

  /** The tokens, in order, on which `verdict` is `accepted`, duplicates
      kept. `_get_ips_list` keeps those `_valid_ip_format` accepts and
      reports those it rejects. */
  function Select(ts: seq<string>, verdict: string -> bool, accepted: bool): (r: seq<string>)
    ensures |r| <= |ts|
  {
    if ts == [] then []
    else (if verdict(ts[0]) == accepted then [ts[0]] else []) + Select(ts[1..], verdict, accepted)
  }

  /** Every selected token has the selected verdict. */
  lemma {:induction false} SelectVerdict(ts: seq<string>, verdict: string -> bool, accepted: bool)
    ensures forall i :: 0 <= i < |Select(ts, verdict, accepted)| ==> verdict(Select(ts, verdict, accepted)[i]) == accepted
  {
    if ts != [] {
      SelectVerdict(ts[1..], verdict, accepted);
    }
  }

  /** Each token occurs in the selection as often as in the input when it
      has the selected verdict, and not at all otherwise. */
  lemma {:induction false} SelectMultiset(ts: seq<string>, verdict: string -> bool, accepted: bool, t: string)
    ensures multiset(Select(ts, verdict, accepted))[t] == if verdict(t) == accepted then multiset(ts)[t] else 0
  {
    if ts != [] {
      assert ts == [ts[0]] + ts[1..];
      SelectMultiset(ts[1..], verdict, accepted, t);
    }
  }

  lemma {:induction false} SelectAppend(a: seq<string>, b: seq<string>, verdict: string -> bool, accepted: bool)
    ensures Select(a + b, verdict, accepted) == Select(a, verdict, accepted) + Select(b, verdict, accepted)
  {
    if a == [] {
      assert a + b == b;
    } else {
      var ab := a + b;
      assert ab != [] && ab[0] == a[0] && ab[1..] == a[1..] + b;
      var head := if verdict(a[0]) == accepted then [a[0]] else [];
      assert Select(ab, verdict, accepted) == head + Select(a[1..] + b, verdict, accepted);
      assert Select(a, verdict, accepted) == head + Select(a[1..], verdict, accepted);
      SelectAppend(a[1..], b, verdict, accepted);
    }
  }

  /** One more token extends the accepted list, or else the rejected list,
      never both. */
  lemma SelectStep(ts: seq<string>, i: nat, verdict: string -> bool)
    requires i < |ts|
    ensures verdict(ts[i]) ==>
      (Select(ts[..i + 1], verdict, true) == Select(ts[..i], verdict, true) + [ts[i]]
       && Select(ts[..i + 1], verdict, false) == Select(ts[..i], verdict, false))
    ensures !verdict(ts[i]) ==>
      (Select(ts[..i + 1], verdict, true) == Select(ts[..i], verdict, true)
       && Select(ts[..i + 1], verdict, false) == Select(ts[..i], verdict, false) + [ts[i]])
  {
    assert ts[..i + 1] == ts[..i] + [ts[i]];
    SelectAppend(ts[..i], [ts[i]], verdict, true);
    SelectAppend(ts[..i], [ts[i]], verdict, false);
  }

  /** `a` is `b` with some elements left out, order kept. */
  ghost predicate IsSubsequence(a: seq<string>, b: seq<string>) {
    if b == [] then a == []
    else (a != [] && a[0] == b[0] && IsSubsequence(a[1..], b[1..])) || IsSubsequence(a, b[1..])
  }

  lemma {:induction false} SelectIsSubsequence(ts: seq<string>, verdict: string -> bool, accepted: bool)
    ensures IsSubsequence(Select(ts, verdict, accepted), ts)
  {
    if ts != [] {
      SelectIsSubsequence(ts[1..], verdict, accepted);
      var rest := Select(ts[1..], verdict, accepted);
      if verdict(ts[0]) == accepted {
        assert Select(ts, verdict, accepted) == [ts[0]] + rest;
        assert ([ts[0]] + rest)[1..] == rest;
      } else {
        assert Select(ts, verdict, accepted) == rest;
      }
    }
  }

  /** What `_get_ips_list` decides: the sentinel, or the accepted tokens
      (the returned list) and the rejected ones (each published). */
  datatype Resolution =
    | Missing(code: int)
    | Targets(valid: seq<string>, rejected: seq<string>)

  /** The reference definition of `_get_ips_list`. */
  function Resolve(ips: Option<string>): Resolution {
    if ips.None? || ips.value == "" then Missing(MISSING_CODE)
    else
      var ts := Tokens(ips.value);
      Targets(Select(ts, ValidIpFormat, true), Select(ts, ValidIpFormat, false))
  }

  /** One diagnostic per rejected token, in order. */
  function Messages(rejected: seq<string>): (m: seq<string>)
    ensures |m| == |rejected|
  {
    if rejected == [] then []
    else Messages(rejected[..|rejected| - 1]) + [InvalidMessage(rejected[|rejected| - 1])]
  }

  lemma MessagesSnoc(rejected: seq<string>, t: string)
    ensures Messages(rejected + [t]) == Messages(rejected) + [InvalidMessage(t)]
  {
  }

  /** The diagnostics `_get_ips_list` publishes, in order. */
  function Published(r: Resolution): seq<string> {
    match r
    case Missing(_) => [MISSING_MESSAGE]
    case Targets(_, rejected) => Messages(rejected)
  }

  /** `_get_ips_list(ips)`, with the emitter's published messages returned. */
  method GetIpsList(ips: Option<string>) returns (result: Resolution, published: seq<string>)
    ensures result == Resolve(ips)
    ensures published == Published(result)
  {
    if ips.None? || ips.value == "" {
      result, published := Missing(MISSING_CODE), [MISSING_MESSAGE];
      return;
    }
    var ipList := Tokens(ips.value);
    var validIps: seq<string> := [];
    var rejected: seq<string> := [];
    published := [];
    for i := 0 to |ipList|
      invariant validIps == Select(ipList[..i], ValidIpFormat, true)
      invariant rejected == Select(ipList[..i], ValidIpFormat, false)
      invariant published == Messages(rejected)
    {
      var ip := ipList[i];
      SelectStep(ipList, i, ValidIpFormat);
      if ValidIpFormat(ip) {
        validIps := validIps + [ip];
      } else {
        MessagesSnoc(rejected, ip);
        rejected := rejected + [ip];
        published := published + [InvalidMessage(ip)];
      }
    }
    assert ipList[..|ipList|] == ipList;
    result := Targets(validIps, rejected);
  }

  // ---------------------------------------------------------------------
  // Properties of the resolver

  /** The sentinel comes exactly for an absent or empty argument, with the
      one diagnostic. */
  lemma MissingIff(ips: Option<string>)
    ensures Resolve(ips).Missing? <==> ips == None || ips == Some("")
    ensures Resolve(ips).Missing? ==> Resolve(ips).code == 1 && Published(Resolve(ips)) == ["--ips requires argument"]
  {
  }

  /** Every token lands in exactly one of the two lists, in input order,
      verbatim, duplicates kept; one diagnostic per rejected token. */
  lemma {:induction false} ResolvePartition(s: string)
    requires s != ""
    ensures Resolve(Some(s)).Targets?
    ensures |Resolve(Some(s)).valid| + |Resolve(Some(s)).rejected| == |Tokens(s)|
    ensures multiset(Resolve(Some(s)).valid) + multiset(Resolve(Some(s)).rejected) == multiset(Tokens(s))
    ensures IsSubsequence(Resolve(Some(s)).valid, Tokens(s))
    ensures IsSubsequence(Resolve(Some(s)).rejected, Tokens(s))
    ensures |Published(Resolve(Some(s)))| == |Resolve(Some(s)).rejected|
  {
    var ts := Tokens(s);
    var v, r := Select(ts, ValidIpFormat, true), Select(ts, ValidIpFormat, false);
    SelectIsSubsequence(ts, ValidIpFormat, true);
    SelectIsSubsequence(ts, ValidIpFormat, false);
    forall t | t in multiset(ts) + multiset(v) + multiset(r)
      ensures (multiset(v) + multiset(r))[t] == multiset(ts)[t]
    {
      SelectMultiset(ts, ValidIpFormat, true, t);
      SelectMultiset(ts, ValidIpFormat, false, t);
    }
    assert multiset(v) + multiset(r) == multiset(ts);
    assert |multiset(v) + multiset(r)| == |multiset(ts)|;
  }

  /** Joining accepted, space-free addresses with commas resolves to exactly
      those addresses with no diagnostic. */
  lemma {:induction false} ResolveJoin(ts: seq<string>)
    requires |ts| >= 1
    requires forall i :: 0 <= i < |ts| ==> ValidIpFormat(ts[i]) && ' ' !in ts[i]
    ensures Resolve(Some(Join(ts, ','))) == Targets(ts, [])
    ensures Published(Resolve(Some(Join(ts, ',')))) == []
  {
    var s := Join(ts, ',');
    JoinAvoids(ts, ',', ' ');
    forall i | 0 <= i < |ts| ensures ',' !in ts[i] {
      ValidIpFormatShape(ts[i]);
    }
    SplitJoin(ts, ',');
    assert Tokens(s) == ts;
    EmptyRejected();
    JoinNonEmpty(ts, ',');
    AllSelected(ts);
  }

  lemma {:induction false} AllSelected(ts: seq<string>)
    requires forall i :: 0 <= i < |ts| ==> ValidIpFormat(ts[i])
    ensures Select(ts, ValidIpFormat, true) == ts && Select(ts, ValidIpFormat, false) == []
  {
    if ts != [] {
      AllSelected(ts[1..]);
      assert [ts[0]] + ts[1..] == ts;
    }
  }

  /** Idempotence: resolving the comma-joined result again gives the same
      targets and publishes nothing. */
  lemma Idempotent(s: string)
    requires Resolve(Some(s)).Targets? && Resolve(Some(s)).valid != []
    ensures Resolve(Some(Join(Resolve(Some(s)).valid, ','))) == Targets(Resolve(Some(s)).valid, [])
    ensures Published(Resolve(Some(Join(Resolve(Some(s)).valid, ',')))) == []
  {
    var ts := Tokens(s);
    var v := Select(ts, ValidIpFormat, true);
    TokensShape(s);
    SelectVerdict(ts, ValidIpFormat, true);
    forall i | 0 <= i < |v| ensures ' ' !in v[i] {
      SelectMultiset(ts, ValidIpFormat, true, v[i]);
      assert v[i] in multiset(v);
      assert v[i] in ts;
    }
    ResolveJoin(v);
  }

  /** A space between two comma-free strings does not separate them: the
      argument is one token, the two halves with their spaces deleted. */
  lemma FuseTokens(a: string, b: string)
    requires ',' !in a && ',' !in b
    ensures Tokens(a + " " + b) == [Delete(a, ' ') + Delete(b, ' ')]
  {
    var s := a + " " + b;
    var da, db := Delete(a, ' '), Delete(b, ' ');
    assert s == a + (" " + b);
    DeleteAppend(a, " " + b, ' ');
    DeleteAppend(" ", b, ' ');
    assert Delete(s, ' ') == da + db;
    DeleteCount(a, ' ', ',');
    DeleteCount(b, ' ', ',');
    CountAppend(da, db, ',');
    TokensOf(s, [da + db]);
  }

  /** An argument that is a single token resolves by that token's verdict
      alone. */
  lemma SingleToken(s: string, t: string)
    requires s != "" && Tokens(s) == [t]
    ensures ValidIpFormat(t) ==> Resolve(Some(s)) == Targets([t], []) && Published(Resolve(Some(s))) == []
    ensures !ValidIpFormat(t) ==>
      Resolve(Some(s)) == Targets([], [t]) && Published(Resolve(Some(s))) == [InvalidMessage(t)]
  {
  }

  /** A token whose dot count is not three is rejected. */
  lemma DotCountRejects(t: string)
    requires Count(t, '.') != 3
    ensures !ValidIpFormat(t)
  {
    if ValidIpFormat(t) {
      ValidIpFormatShape(t);
    }
  }

  /** Two comma-free strings joined by a space make one token; when their
      dots do not add up to three, that token is rejected. */
  lemma SpaceJoinedRejected(a: string, b: string)
    requires ',' !in a && ',' !in b
    requires Count(a, '.') + Count(b, '.') != 3
    ensures Resolve(Some(a + " " + b)) == Targets([], [Delete(a, ' ') + Delete(b, ' ')])
  {
    FuseTokens(a, b);
    var da, db := Delete(a, ' '), Delete(b, ' ');
    DeleteCount(a, ' ', '.');
    DeleteCount(b, ' ', '.');
    CountAppend(da, db, '.');
    DotCountRejects(da + db);
    SingleToken(a + " " + b, da + db);
  }

  /** Two addresses separated by a space are never split apart: they fuse
      into one token with six dots, which is rejected. */
  lemma SpaceSeparatedFuse(a: string, b: string)
    requires ValidIpFormat(a) && ValidIpFormat(b)
    ensures Resolve(Some(a + " " + b)) == Targets([], [Delete(a, ' ') + Delete(b, ' ')])
  {
    ValidIpFormatShape(a);
    ValidIpFormatShape(b);
    SpaceJoinedRejected(a, b);
  }

  /** Deleting the spaces around a comma before a space-free tail. */
  lemma DeleteAroundComma(x: string, c: string)
    requires ' ' !in c
    ensures Delete(x + " , " + c, ' ') == Delete(x, ' ') + "," + c
  {
    assert x + " , " + c == x + (" , " + c);
    DeleteAppend(x, " , " + c, ' ');
    DeleteAppend(" , ", c, ' ');
  }

  /** Two comma-free strings joined by a space, then a space, a comma
      and a space-free, comma-free third string: two tokens, the fused
      pair and the third. */
  lemma SpaceCommaTokens(a: string, b: string, c: string)
    requires ',' !in a && ',' !in b && ',' !in c && ' ' !in c
    ensures Tokens(a + " " + b + " , " + c) == [Delete(a, ' ') + Delete(b, ' '), c]
  {
    var fused := Delete(a + " " + b, ' ');
    FuseTokens(a, b);
    DeleteAroundComma(a + " " + b, c);
    TokensShape(a + " " + b);
    assert ',' !in fused;
    TokensOf(a + " " + b + " , " + c, [fused, c]);
  }

  /** An argument of two tokens, the first rejected and the second
      accepted. */
  lemma RejectedThenAccepted(s: string, t: string, u: string)
    requires s != "" && Tokens(s) == [t, u]
    requires !ValidIpFormat(t) && ValidIpFormat(u)
    ensures Resolve(Some(s)) == Targets([u], [t])
  {
    SelectPair(t, u, ValidIpFormat);
  }

  /** Of two tokens, the first failing and the second passing `verdict`,
      each lands on its own side. */
  lemma SelectPair(t: string, u: string, verdict: string -> bool)
    requires !verdict(t) && verdict(u)
    ensures Select([t, u], verdict, true) == [u]
    ensures Select([t, u], verdict, false) == [t]
  {
  }

  /** Two addresses joined by a space and then a comma and a third
      space-free address: the fused pair is rejected and the third kept. */
  lemma SpaceCommaThenValid(a: string, b: string, c: string)
    requires ValidIpFormat(a) && ValidIpFormat(b) && ValidIpFormat(c) && ' ' !in c
    ensures Resolve(Some(a + " " + b + " , " + c)) == Targets([c], [Delete(a, ' ') + Delete(b, ' ')])
  {
    ValidIpFormatShape(a);
    ValidIpFormatShape(b);
    ValidIpFormatShape(c);
    var fused := Delete(a, ' ') + Delete(b, ' ');
    SpaceCommaTokens(a, b, c);
    SpaceJoinedCount(a, b);
    DotCountRejects(fused);
    RejectedThenAccepted(a + " " + b + " , " + c, fused, c);
  }

  /** The dots of two space-joined addresses add up in the fused token. */
  lemma SpaceJoinedCount(a: string, b: string)
    requires ValidIpFormat(a) && ValidIpFormat(b)
    ensures Count(Delete(a, ' ') + Delete(b, ' '), '.') == 6
  {
    ValidIpFormatShape(a);
    ValidIpFormatShape(b);
    DeleteCount(a, ' ', '.');
    DeleteCount(b, ' ', '.');
    CountAppend(Delete(a, ' '), Delete(b, ' '), '.');
  }

  /** An argument of spaces only is not missing: it gives one empty token,
      which is rejected. */
  lemma {:induction false} OnlySpaces(s: string)
    requires s != "" && forall i :: 0 <= i < |s| ==> s[i] == ' '
    ensures Resolve(Some(s)) == Targets([], [""])
    ensures Published(Resolve(Some(s))) == [InvalidMessage("")]
  {
    OnlySpacesDeleted(s);
    EmptyRejected();
    TokensOf(s, [""]);
    SingleToken(s, "");
  }

  lemma {:induction false} OnlySpacesDeleted(s: string)
    requires forall i :: 0 <= i < |s| ==> s[i] == ' '
    ensures Delete(s, ' ') == ""
  {
    if s != [] {
      OnlySpacesDeleted(s[1..]);
    }
  }
}
