/**
 The names that TcpServer.cc gives its connections: a dash, the listening address, and a number.
 */
module ConnectionNames {
  import opened CppArithmetic
  import opened IntegerText

  // ---------------------------------------------------------------- the code

  /** A socket address, by the text that `inet_ntop` gives for its IP address. */
  datatype Address = V4(ip: string, port: nat) | V6(ip: string, port: nat)

  /** Four numbers below 256 and three dots take at most 15 characters, eight groups of four hexadecimal
      digits and seven colons 39; an IPv6 address with a dotted tail is shorter than that. */
  predicate ValidAddress(a: Address) {
    |a.ip| <= (if a.V4? then 15 else 39) && a.port < 65536
  }

  /** `toIpPort`; the result fits its 64 characters. */
  function ToIpPort(a: Address): string {
    match a
    case V4(ip, port) => ip + ":" + Decimal(port)
    case V6(ip, port) => "[" + ip + "]:" + Decimal(port)
  }

  const NAME_BUFFER: nat := 64

  function FullName(ipPort: string, id: nat): string {
    "-" + ipPort + "#" + Decimal(id)
  }

  /** `snprintf` cuts what does not fit the buffer with its NUL; `m_name`, never set, is empty. */
  function Name(ipPort: string, id: nat): string {
    var full := FullName(ipPort, id);
    if |full| < NAME_BUFFER then full else full[..NAME_BUFFER - 1]
  }

  predicate Untruncated(ipPort: string, id: nat) {
    |FullName(ipPort, id)| < NAME_BUFFER
  }

  /** Addresses and names as they are printed. */
  lemma PrintedForms()
    ensures ToIpPort(V4("127.0.0.1", 80)) == "127.0.0.1:80" && ToIpPort(V6("::1", 8080)) == "[::1]:8080"
    ensures Name("127.0.0.1:80", 12) == "-127.0.0.1:80#12"
  {
    assert Numeral(8080, 10) == "8080" by {
      assert Numeral(80, 10) == "80" && Numeral(808, 10) == Numeral(80, 10) + "8";
    }
    assert Decimal(80) == "80" && Decimal(8080) == "8080" && Decimal(12) == "12";
  }

  // ---------------------------------------------------------------- uncut names tell connections apart

  lemma NamesDiffer(ipPort: string, id: nat, id': nat)
    requires Untruncated(ipPort, id) && Untruncated(ipPort, id')
    ensures Name(ipPort, id) == Name(ipPort, id') <==> id == id'
  {
    var prefix := "-" + ipPort + "#";
    var text, text' := Decimal(id), Decimal(id');
    DecimalRoundTrip(id);
    DecimalRoundTrip(id');
    assert (prefix + text)[|prefix|..] == text;
    assert (prefix + text')[|prefix|..] == text';
  }

  lemma {:induction false} LongerNumeral(n: nat, m: nat)
    requires n <= m
    ensures |Numeral(n, 10)| <= |Numeral(m, 10)|
  {
    if n >= 10 {
      LongerNumeral(n / 10, m / 10);
    }
  }

  /** The decimal text of a number, cut after `k` digits, is the text of a smaller number. */
  lemma CutNumeral(id: nat, k: nat) returns (id': nat)
    requires id >= 1 && 1 <= k < |Decimal(id)|
    ensures 1 <= id' < id && Decimal(id') == Decimal(id)[..k]
  {
    var digits := Decimal(id);
    NumeralHasValue(id, 10);
    assert digits[..k][0] == digits[0];
    assert Canonical(digits[..k], 10);
    ValueHasNumeral(digits[..k], 10);
    id' := Value(digits[..k], 10);
    if id <= id' {
      LongerNumeral(id, id');
    }
  }

  /** A name that is cut is the name of a smaller number. */
  lemma CutNameRepeats(ipPort: string, id: nat) returns (id': nat)
    requires id >= 2 && !Untruncated(ipPort, id)
    ensures 1 <= id' < id && Name(ipPort, id') == Name(ipPort, id)
  {
    var prefix := "-" + ipPort + "#";
    var kept := NAME_BUFFER - 1;
    if |prefix| >= kept {
      id' := 1;
      CutPrefix(prefix, Decimal(1), kept);
      CutPrefix(prefix, Decimal(id), kept);
    } else {
      id' := CutNumeral(id, kept - |prefix|);
      CutText(prefix, Decimal(id), kept);
    }
  }

  lemma CutPrefix(prefix: string, text: string, kept: nat)
    requires kept <= |prefix|
    ensures (prefix + text)[..kept] == prefix[..kept]
  {
  }

  lemma CutText(prefix: string, text: string, kept: nat)
    requires |prefix| <= kept <= |prefix| + |text|
    ensures (prefix + text)[..kept] == prefix + text[..kept - |prefix|]
  {
  }

  predicate IsRepeated(ipPort: string, id: nat) {
    exists id' :: 1 <= id' < id && Name(ipPort, id') == Name(ipPort, id)
  }

  /** For any address text, a connection gets the name of an earlier one exactly when its name is cut. */
  lemma NameRepeatsExactlyWhenCut(ipPort: string, id: nat)
    requires id >= 2
    ensures IsRepeated(ipPort, id) <==> !Untruncated(ipPort, id)
  {
    if !Untruncated(ipPort, id) {
      var id' := CutNameRepeats(ipPort, id);
    } else {
      forall id' | 1 <= id' < id
        ensures Name(ipPort, id') != Name(ipPort, id)
      {
        LongerNumeral(id', id);
        NamesDiffer(ipPort, id', id);
      }
    }
  }

  // ---------------------------------------------------------------- the server's names are never cut

  lemma ShortNumbers(n: nat)
    ensures n <= INT_MAX ==> |Decimal(n)| <= 10
    ensures n < 65536 ==> |Decimal(n)| <= 5
  {
    TenToThe(0, 1);
    TenToThe(5, 100000);
    if n <= INT_MAX {
      NumeralLength(n, 10, 10);
    }
    if n < 65536 {
      NumeralLength(n, 10, 5);
    }
  }

  lemma IpPortIsShort(a: Address)
    requires ValidAddress(a)
    ensures |ToIpPort(a)| <= 47
  {
    ShortNumbers(a.port);
  }

  /** With an address that sockets can have and a number that an int can hold, nothing is cut. */
  lemma ServerNamesAreUncut(a: Address, id: nat)
    requires ValidAddress(a) && id <= INT_MAX
    ensures Untruncated(ToIpPort(a), id)
  {
    IpPortIsShort(a);
    ShortNumbers(id);
  }

  /** So no two connections of a server share a name. */
  lemma ServerNamesDiffer(a: Address, id: nat, id': nat)
    requires ValidAddress(a) && id <= INT_MAX && id' <= INT_MAX && id != id'
    ensures Name(ToIpPort(a), id) != Name(ToIpPort(a), id')
  {
    ServerNamesAreUncut(a, id);
    ServerNamesAreUncut(a, id');
    NamesDiffer(ToIpPort(a), id, id');
  }
}
