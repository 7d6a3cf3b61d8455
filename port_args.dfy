/** parsePortArgs: the argument of PORT, "h1,h2,h3,h4,p1,p2" (section 4.1.2 of RFC 959). */
module PortArgs {
  import opened Wrappers
  import opened Text

  /** An InetSocketAddress: the four octets of an IPv4 host and a port. */
  datatype Address = Address(host: seq<int>, port: int)

  predicate ValidAddress(a: Address) {
    && |a.host| == 4
    && (forall i :: 0 <= i < 4 ==> 0 <= a.host[i] <= 255)
    && 0 <= a.port <= 65535
  }

  /** A field that Integer.parseInt accepts and whose value lies in 0..255. */
  predicate IsOctet(s: string) {
    ParseInt(s).Some? && 0 <= ParseInt(s).value <= 255
  }

  function Octet(s: string): int
    requires IsOctet(s)
  {
    ParseInt(s).value
  }

  /**
   * The address parsePortArgs returns: present exactly when split(",")
   * yields six fields that are all octets; the port is p1 * 256 + p2.
   */
  function PortAddress(arg: string): (r: Option<Address>)
    ensures r.Some? <==> |JavaSplit(arg, ',')| == 6 && forall i :: 0 <= i < 6 ==> IsOctet(JavaSplit(arg, ',')[i])
    ensures r.Some? ==> ValidAddress(r.value)
  {
    var parts := JavaSplit(arg, ',');
    if |parts| == 6 && forall i :: 0 <= i < 6 ==> IsOctet(parts[i]) then
      Some(Address([Octet(parts[0]), Octet(parts[1]), Octet(parts[2]), Octet(parts[3])],
                   Octet(parts[4]) * 256 + Octet(parts[5])))
    else None
  }

  lemma PortAddressOfOctets(arg: string, vals: seq<int>)
    requires |JavaSplit(arg, ',')| == 6 && |vals| == 6
    requires forall i :: 0 <= i < 6 ==> IsOctet(JavaSplit(arg, ',')[i]) && vals[i] == Octet(JavaSplit(arg, ',')[i])
    ensures PortAddress(arg) == Some(Address(vals[..4], vals[4] * 256 + vals[5]))
  {
    assert vals[..4] == [vals[0], vals[1], vals[2], vals[3]];
  }

  /** parsePortArgs: the loops filling parts[] and address[]; None where the Java returns null. */
  method ParsePortArgs(portArgs: string) returns (r: Option<Address>)
    ensures r == PortAddress(portArgs)
  {
    var strParts := JavaSplit(portArgs, ',');
    if |strParts| != 6 {
      return None;
    }
    var address := new int[4];
    var parts := new int[6];
    for i := 0 to 6
      invariant forall j :: 0 <= j < i ==> IsOctet(strParts[j]) && parts[j] == Octet(strParts[j])
    {
      var v := ParseInt(strParts[i]);
      if v.None? {
        assert !IsOctet(strParts[i]);
        return None;
      }
      parts[i] := v.value;
      if parts[i] < 0 || parts[i] > 255 {
        assert !IsOctet(strParts[i]);
        return None;
      }
    }
    for i := 0 to 4
      invariant forall j :: 0 <= j < i ==> address[j] == parts[j]
      modifies address
    {
      address[i] := parts[i];
    }
    // `parts[4] << 8 | parts[5]`: parts[5] < 256 occupies the low eight bits, so the or is an addition.
    var port := parts[4] * 256 + parts[5];
    PortAddressOfOctets(portArgs, parts[..]);
    assert address[..] == parts[..4];
    r := Some(Address(address[..], port));
  }

  /** The six numbers of a PORT argument: the host octets, then the port's high and low byte. */
  function PortFields(a: Address): seq<nat>
    requires ValidAddress(a)
  {
    [a.host[0], a.host[1], a.host[2], a.host[3], a.port / 256, a.port % 256]
  }

  function Decimals(vals: seq<nat>): seq<string> {
    seq(|vals|, i requires 0 <= i < |vals| => NatToString(vals[i]))
  }

  /** How a client writes an address as a PORT argument. */
  function FormatPortArgs(a: Address): string
    requires ValidAddress(a)
  {
    Join(Decimals(PortFields(a)), ",")
  }

  lemma FieldsOfAddress(a: Address)
    requires ValidAddress(a)
    ensures var vals := PortFields(a); Address(vals[..4], vals[4] * 256 + vals[5]) == a
  {
    var vals := PortFields(a);
    assert vals[..4] == a.host;
  }

  lemma OctetOfNatToString(n: int)
    requires 0 <= n <= 255
    ensures ',' !in NatToString(n)
    ensures IsOctet(NatToString(n)) && Octet(NatToString(n)) == n
  {
    ParseIntOfNatToString(n);
  }

  lemma PortAddressOfDecimals(vals: seq<nat>)
    requires |vals| == 6 && forall i :: 0 <= i < 6 ==> vals[i] <= 255
    ensures PortAddress(Join(Decimals(vals), ",")) == Some(Address(vals[..4], vals[4] * 256 + vals[5]))
  {
    var parts := Decimals(vals);
    forall i | 0 <= i < 6
      ensures ',' !in parts[i] && IsOctet(parts[i]) && Octet(parts[i]) == vals[i]
    {
      OctetOfNatToString(vals[i]);
    }
    JavaSplitOfJoin(parts, ',');
    PortAddressOfOctets(Join(parts, ","), vals);
  }

  /** Every valid address survives being written as a PORT argument and parsed back. */
  lemma PortRoundTrip(a: Address)
    requires ValidAddress(a)
    ensures PortAddress(FormatPortArgs(a)) == Some(a)
  {
    PortAddressOfDecimals(PortFields(a));
    FieldsOfAddress(a);
  }

  lemma JoinSix(a: string, b: string, c: string, d: string, e: string, f: string, sep: string)
    ensures Join([a, b, c, d, e, f], sep) == a + sep + b + sep + c + sep + d + sep + e + sep + f
  {
    JoinSnoc([a], b, sep);
    assert [a] + [b] == [a, b];
    JoinSnoc([a, b], c, sep);
    assert [a, b] + [c] == [a, b, c];
    JoinSnoc([a, b, c], d, sep);
    assert [a, b, c] + [d] == [a, b, c, d];
    JoinSnoc([a, b, c, d], e, sep);
    assert [a, b, c, d] + [e] == [a, b, c, d, e];
    JoinSnoc([a, b, c, d, e], f, sep);
    assert [a, b, c, d, e] + [f] == [a, b, c, d, e, f];
  }

  lemma JoinLocalPort()
    ensures Join(["127", "0", "0", "1", "4", "1"], ",") == "127,0,0,1,4,1"
  {
    JoinSix("127", "0", "0", "1", "4", "1", ",");
  }

  /** "127,0,0,1,4,1" is 127.0.0.1, port 4 * 256 + 1. */
  lemma PortExampleAccepted()
    ensures PortAddress("127,0,0,1,4,1") == Some(Address([127, 0, 0, 1], 1025))
  {
    var vals: seq<nat> := [127, 0, 0, 1, 4, 1];
    assert NatToString(127) == "127";
    assert Decimals(vals) == ["127", "0", "0", "1", "4", "1"];
    JoinLocalPort();
    PortAddressOfDecimals(vals);
    assert vals[..4] == [127, 0, 0, 1];
  }

  lemma SplitThree()
    ensures JavaSplit("1,2,3", ',') == ["1", "2", "3"]
  {
    JoinSnoc(["1"], "2", ",");
    assert ["1"] + ["2"] == ["1", "2"];
    JoinSnoc(["1", "2"], "3", ",");
    assert ["1", "2"] + ["3"] == ["1", "2", "3"];
    assert Join(["1", "2", "3"], ",") == "1,2,3";
    JavaSplitOfJoin(["1", "2", "3"], ',');
  }

  /** Three fields instead of six: refused. */
  lemma PortExampleArity()
    ensures PortAddress("1,2,3") == None
  {
    SplitThree();
  }

  lemma SplitSix()
    ensures JavaSplit("1,2,3,4,5,300", ',') == ["1", "2", "3", "4", "5", "300"]
  {
    var parts := ["1", "2", "3", "4", "5", "300"];
    JoinSix("1", "2", "3", "4", "5", "300", ",");
    assert Join(parts, ",") == "1,2,3,4,5,300";
    JavaSplitOfJoin(parts, ',');
  }

  lemma ParseThreeHundred()
    ensures ParseInt("300") == Some(300)
  {
    assert NatToString(30) == "30";
    assert NatToString(300) == "300";
    ParseIntOfNatToString(300);
  }

  /** A field above 255: refused. */
  lemma PortExampleRange()
    ensures PortAddress("1,2,3,4,5,300") == None
  {
    SplitSix();
    ParseThreeHundred();
    assert !IsOctet(JavaSplit("1,2,3,4,5,300", ',')[5]);
  }

  /** String.split drops trailing empty strings, so a trailing comma changes nothing. */
  lemma PortIgnoresTrailingComma(arg: string)
    ensures PortAddress(arg + ",") == PortAddress(arg)
  {
    JavaSplitTrailingSep(arg, ',');
    assert arg + [','] == arg + ",";
  }
}
