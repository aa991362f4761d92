// "host:port" strings: Go's net.SplitHostPort, which the registry and the indexes parse with, and
// the unbracketed join they build addresses with.
module Addresses {
  import opened Prelude

  datatype HostPort = HostPort(host: string, port: string)

  /** First position of c, or |s|. */
  function IndexOf(s: string, c: char): (i: nat)
    ensures i <= |s| && (forall k | 0 <= k < i :: s[k] != c) && (i < |s| ==> s[i] == c)
  {
    if s == [] || s[0] == c then 0 else 1 + IndexOf(s[1..], c)
  }

  /** Last position of c, or -1. */
  function LastIndexOf(s: string, c: char): (i: int)
    ensures -1 <= i < |s| && (forall k | i < k < |s| :: s[k] != c) && (i >= 0 ==> s[i] == c)
  {
    if s == [] then -1 else if s[|s| - 1] == c then |s| - 1 else LastIndexOf(s[..|s| - 1], c)
  }

  /** net.SplitHostPort: none when the port is missing, a colon is left in an unbracketed host, or
      brackets are out of place. */
  function SplitHostPort(addr: string): Option<HostPort> {
    var i := LastIndexOf(addr, ':');
    if i < 0 then None
    else if addr[0] == '[' then
      var end := IndexOf(addr, ']');
      if end == |addr| || end + 1 != i then None
      else if '[' in addr[1..] || ']' in addr[end + 1..] then None
      else Some(HostPort(addr[1..end], addr[i + 1..]))
    else if ':' in addr[..i] || '[' in addr || ']' in addr then None
    else Some(HostPort(addr[..i], addr[i + 1..]))
  }

  function JoinHostPort(host: string, port: string): string {
    host + ":" + port
  }

  predicate Plain(s: string) {
    ':' !in s && '[' !in s && ']' !in s
  }

  lemma LastColon(host: string, port: string)
    requires ':' !in port
    ensures LastIndexOf(JoinHostPort(host, port), ':') == |host|
  {
    var s := JoinHostPort(host, port);
    var i := LastIndexOf(s, ':');
    assert s[|host|] == ':' && s[|host| + 1..] == port;
    assert forall k | |host| < k < |s| :: s[k] == port[k - |host| - 1];
  }

  /** A plain host and port join to an address that splits back. */
  lemma JoinThenSplit(host: string, port: string)
    requires Plain(host) && Plain(port)
    ensures SplitHostPort(JoinHostPort(host, port)) == Some(HostPort(host, port))
  {
    LastColon(host, port);
    var s := JoinHostPort(host, port);
    assert s[..|host|] == host && s[|host| + 1..] == port;
    if host != [] { assert s[0] == host[0]; }
  }

  /** An address without a leading bracket splits exactly into the plain host and port it joins. */
  lemma UnbracketedSplitsIff(addr: string, host: string, port: string)
    requires addr == [] || addr[0] != '['
    ensures SplitHostPort(addr) == Some(HostPort(host, port)) <==> addr == JoinHostPort(host, port) && Plain(host) && Plain(port)
  {
    hide SplitHostPort, Plain, JoinHostPort;
    if Plain(host) && Plain(port) { JoinThenSplit(host, port); }
    if SplitHostPort(addr).Some? { UnbracketedSplits(addr); }
  }

  lemma UnbracketedSplits(addr: string)
    requires (addr == [] || addr[0] != '[') && SplitHostPort(addr).Some?
    ensures var hp := SplitHostPort(addr).value; addr == JoinHostPort(hp.host, hp.port) && Plain(hp.host) && Plain(hp.port)
  {
    SplitIsClean(addr);
    hide IndexOf, LastIndexOf;
    var i := LastIndexOf(addr, ':');
    assert addr == addr[..i] + [addr[i]] + addr[i + 1..];
  }

  /** A bracketed host, with or without colons, splits to the host without its brackets. */
  lemma BracketedSplits(host: string, port: string)
    requires '[' !in host && ']' !in host && Plain(port)
    ensures SplitHostPort(JoinHostPort("[" + host + "]", port)) == Some(HostPort(host, port))
  {
    var b := "[" + host + "]";
    var s, n := JoinHostPort(b, port), |host| + 1;
    LastColon(b, port);
    assert s[0] == '[' && s[n] == ']' && forall k | 0 < k < n :: s[k] == host[k - 1];
    assert IndexOf(s, ']') == n;
    assert s[1..n] == host && s[n + 2..] == port && s[n + 1..] == ":" + port;
    assert s[1..] == host + "]" + s[n + 1..];
  }

  /** A host with a colon, joined without brackets, does not split. */
  lemma ColonHostDoesNotSplit(host: string, port: string)
    requires ':' in host && '[' !in host && ':' !in port
    ensures SplitHostPort(JoinHostPort(host, port)).None?
  {
    LastColon(host, port);
    var s := JoinHostPort(host, port);
    assert s[..|host|] == host;
    assert s[0] == host[0];
  }

  /** What a split yields has no stray brackets, and no colon in the port. */
  lemma SplitIsClean(addr: string)
    requires SplitHostPort(addr).Some?
    ensures var hp := SplitHostPort(addr).value;
      '[' !in hp.host && ']' !in hp.host && Plain(hp.port)
  {
    var i := LastIndexOf(addr, ':');
    if addr[0] == '[' {
      var end := IndexOf(addr, ']');
      assert forall c | c in addr[1..end] :: c in addr[1..] && c in addr[..end];
      assert forall c | c in addr[i + 1..] :: c in addr[1..] && c in addr[end + 1..];
    } else {
      assert forall c | c in addr[..i] :: c in addr;
      assert forall c | c in addr[i + 1..] :: c in addr;
    }
  }

  // ----- numbers as strings -----

  function Digit(d: nat): char
    requires d < 10
  {
    '0' + d as char
  }

  /** strconv.Itoa of a nonnegative number. */
  function Digits(n: nat): (s: string)
    ensures s != [] && forall i | 0 <= i < |s| :: '0' <= s[i] <= '9'
  {
    if n < 10 then [Digit(n)] else Digits(n / 10) + [Digit(n % 10)]
  }

  function Itoa(n: int): string {
    if n < 0 then "-" + Digits(-n) else Digits(n)
  }

  lemma ItoaPlain(n: int)
    ensures Plain(Itoa(n))
  {
    if n < 0 {
      assert forall c | c in Itoa(n) :: c == '-' || c in Digits(-n);
    }
  }

  function DigitsValue(s: string): nat
    requires forall i | 0 <= i < |s| :: '0' <= s[i] <= '9'
  {
    if s == [] then 0 else 10 * DigitsValue(s[..|s| - 1]) + (s[|s| - 1] - '0') as int
  }

  predicate AllDigits(s: string) {
    forall i | 0 <= i < |s| :: '0' <= s[i] <= '9'
  }

  /** strconv.Atoi, without its 64-bit range check. */
  function Atoi(s: string): Option<int> {
    var unsigned := if s != [] && (s[0] == '-' || s[0] == '+') then s[1..] else s;
    if unsigned == [] || !AllDigits(unsigned) then None
    else
      var value: int := DigitsValue(unsigned);
      Some(if s[0] == '-' then -value else value)
  }

  lemma {:induction false} DigitsRoundTrip(n: nat)
    ensures AllDigits(Digits(n)) && DigitsValue(Digits(n)) == n
  {
    if n >= 10 {
      DigitsRoundTrip(n / 10);
      var s := Digits(n);
      assert s[..|s| - 1] == Digits(n / 10);
    }
  }

  /** Parsing a formatted number gives it back, so formatting is injective. */
  lemma AtoiOfItoa(n: int)
    ensures Atoi(Itoa(n)) == Some(n)
  {
    hide DigitsValue, Digits;
    if n < 0 {
      DigitsRoundTrip(-n);
      assert Itoa(n)[1..] == Digits(-n);
    } else {
      DigitsRoundTrip(n);
    }
  }
}
