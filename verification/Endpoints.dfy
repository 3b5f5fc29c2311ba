/** Endpoint URLs built from an address and a host port. */
module Endpoints {
  import opened Protocol

  function Digit(d: nat): char
    requires d < 10
  {
    '0' + d as char
  }

  /** `strconv.Itoa` */
  function Itoa(n: int): string
    decreases if n < 0 then 1 - n else n
  {
    if n < 0 then "-" + Itoa(-n)
    else if n < 10 then [Digit(n)]
    else Itoa(n / 10) + [Digit(n % 10)]
  }

  /** `net.JoinHostPort`: a host with colons is put in brackets. */
  function JoinHostPort(host: string, port: string): string {
    if ':' in host then "[" + host + "]:" + port else host + ":" + port
  }

  function HttpsUrl(host: string, port: int): string {
    "https://" + JoinHostPort(host, Itoa(port))
  }

  lemma {:induction false} ItoaNonNegative(n: nat)
    ensures Itoa(n) != "" && ':' !in Itoa(n) && '-' !in Itoa(n)
  {
    if n < 10 {
    } else {
      ItoaNonNegative(n / 10);
    }
  }

  lemma {:induction false} ItoaShape(n: int)
    ensures Itoa(n) != "" && ':' !in Itoa(n)
    ensures n < 0 <==> Itoa(n)[0] == '-'
  {
    if n < 0 { ItoaNonNegative(-n); } else { ItoaNonNegative(n); }
  }

  lemma {:induction false} ItoaInjectiveNat(m: nat, n: nat)
    requires Itoa(m) == Itoa(n)
    ensures m == n
    decreases m
  {
    ItoaNonNegative(m / 10);
    ItoaNonNegative(n / 10);
    assert m >= 10 ==> Itoa(m)[..|Itoa(m)| - 1] == Itoa(m / 10) && Itoa(m)[|Itoa(m)| - 1] == Digit(m % 10);
    assert n >= 10 ==> Itoa(n)[..|Itoa(n)| - 1] == Itoa(n / 10) && Itoa(n)[|Itoa(n)| - 1] == Digit(n % 10);
    if m < 10 || n < 10 {
    } else {
      ItoaInjectiveNat(m / 10, n / 10);
    }
  }

  /** Different ports have different texts. */
  lemma {:induction false} ItoaInjective(m: int, n: int)
    requires Itoa(m) == Itoa(n)
    ensures m == n
  {
    ItoaShape(m);
    ItoaShape(n);
    if m < 0 {
      assert Itoa(m)[1..] == Itoa(-m) && Itoa(n)[1..] == Itoa(-n);
      ItoaInjectiveNat(-m, -n);
    } else {
      ItoaInjectiveNat(m, n);
    }
  }

  /** The text after the last colon is the port. */
  lemma {:induction false} LastColon(a: string, p: string, b: string, q: string)
    requires a + ":" + p == b + ":" + q && ':' !in p && ':' !in q
    ensures a == b && p == q
  {
    var s := a + ":" + p;
    assert s == b + ":" + q;
    assert s[|a|] == ':' && s[|b|] == ':';
    assert forall i :: |a| < i < |s| ==> s[i] == p[i - |a| - 1];
    assert forall i :: |b| < i < |s| ==> s[i] == q[i - |b| - 1];
    assert s[..|a|] == a && s[..|b|] == b && s[|a| + 1..] == p && s[|b| + 1..] == q;
  }

  lemma {:induction false} JoinInjective(h1: string, p1: string, h2: string, p2: string)
    requires ':' !in p1 && ':' !in p2 && JoinHostPort(h1, p1) == JoinHostPort(h2, p2)
    ensures h1 == h2 && p1 == p2
  {
    var a := if ':' in h1 then "[" + h1 + "]" else h1;
    var b := if ':' in h2 then "[" + h2 + "]" else h2;
    assert JoinHostPort(h1, p1) == a + ":" + p1 && JoinHostPort(h2, p2) == b + ":" + p2;
    LastColon(a, p1, b, p2);
    if ':' in h1 { assert h1 == a[1..|a| - 1]; Bracketed(h1); } else { assert ':' !in a; }
    if ':' in h2 { assert h2 == b[1..|b| - 1]; Bracketed(h2); } else { assert ':' !in b; }
  }

  lemma {:induction false} Bracketed(h: string)
    requires ':' in h
    ensures ':' in "[" + h + "]"
  {
    var i :| 0 <= i < |h| && h[i] == ':';
    assert ("[" + h + "]")[i + 1] == ':';
  }

  /** A URL determines the address and the port it was made of. */
  lemma {:induction false} UrlInjective(h1: string, p1: int, h2: string, p2: int)
    requires HttpsUrl(h1, p1) == HttpsUrl(h2, p2)
    ensures h1 == h2 && p1 == p2
  {
    var u, v := JoinHostPort(h1, Itoa(p1)), JoinHostPort(h2, Itoa(p2));
    assert HttpsUrl(h1, p1)[8..] == u && HttpsUrl(h2, p2)[8..] == v;
    ItoaShape(p1);
    ItoaShape(p2);
    JoinInjective(h1, Itoa(p1), h2, Itoa(p2));
    ItoaInjective(p1, p2);
  }

  // ---------------------------------------------------------------------------------------------
  // Reading a URL

  function DigitValue(c: char): int {
    c as int - '0' as int
  }

  /** The number a text of decimal digits stands for, most significant digit first. */
  function Decimal(s: string): int {
    if s == "" then 0 else 10 * Decimal(s[..|s| - 1]) + DigitValue(s[|s| - 1])
  }

  predicate AllDigits(s: string) {
    s != "" && forall c :: c in s ==> '0' <= c <= '9'
  }

  /** The text stands for this number: digits, after a minus if it is negative. */
  predicate Denotes(s: string, n: int) {
    if n >= 0 then AllDigits(s) && Decimal(s) == n
    else s != "" && s[0] == '-' && AllDigits(s[1..]) && Decimal(s[1..]) == -n
  }

  /** The position of the last colon, or the length of a text without one. */
  function LastColonAt(s: string): nat {
    if s == "" then 0
    else if s[|s| - 1] == ':' then |s| - 1
    else if LastColonAt(s[..|s| - 1]) == |s| - 1 then |s|
    else LastColonAt(s[..|s| - 1])
  }

  /** A URL of this address and this port: before the last colon the scheme and the address, in brackets exactly if it has a
      colon itself, and after it the port. */
  predicate ReadsAs(url: string, host: string, port: int) {
    var i := LastColonAt(url);
    && i < |url| && url[..i] == "https://" + (if ':' in host then "[" + host + "]" else host)
    && Denotes(url[i + 1..], port)
  }

  lemma {:induction false} DigitReads(d: nat)
    requires d < 10
    ensures '0' <= Digit(d) <= '9' && DigitValue(Digit(d)) == d
  {
  }

  lemma {:induction false} ItoaReads(n: nat)
    ensures AllDigits(Itoa(n)) && Decimal(Itoa(n)) == n
  {
    DigitReads(n % 10);
    if n < 10 {
      assert Itoa(n)[..0] == "";
    } else {
      ItoaReads(n / 10);
      assert Itoa(n)[..|Itoa(n)| - 1] == Itoa(n / 10);
    }
  }

  lemma {:induction false} ItoaDenotes(n: int)
    ensures Denotes(Itoa(n), n)
  {
    if n < 0 {
      ItoaReads(-n);
      assert Itoa(n)[1..] == Itoa(-n);
    } else {
      ItoaReads(n);
    }
  }

  lemma {:induction false} ColonFound(a: string, p: string)
    requires ':' !in p
    ensures LastColonAt(a + ":" + p) == |a|
  {
    var s := a + ":" + p;
    if p == "" {
    } else {
      ColonFound(a, p[..|p| - 1]);
      assert s[..|s| - 1] == a + ":" + p[..|p| - 1];
      assert s[|s| - 1] == p[|p| - 1] && p[|p| - 1] in p;
    }
  }

  /** Every URL reads back as the address and the port it was made of. */
  lemma {:induction false} UrlReadsBack(host: string, port: int)
    ensures ReadsAs(HttpsUrl(host, port), host, port)
  {
    var a, p := "https://" + (if ':' in host then "[" + host + "]" else host), Itoa(port);
    ItoaShape(port);
    ItoaDenotes(port);
    assert HttpsUrl(host, port) == a + ":" + p;
    ColonFound(a, p);
  }

  /** The endpoint of a component by one of its ports. */
  function UrlOf(hypervisors: map<string, HypervisorObject>, c: ComponentObject, name: string): string
    requires c.hypervisor in hypervisors && name in c.ports
  {
    HttpsUrl(hypervisors[c.hypervisor].ipAddress, c.ports[name])
  }

  /** It reads as the address of its hypervisor and the port recorded under that name. */
  lemma {:induction false} UrlOfReadsBack(hypervisors: map<string, HypervisorObject>, c: ComponentObject, name: string)
    requires c.hypervisor in hypervisors && name in c.ports
    ensures ReadsAs(UrlOf(hypervisors, c, name), hypervisors[c.hypervisor].ipAddress, c.ports[name])
  {
    UrlReadsBack(hypervisors[c.hypervisor].ipAddress, c.ports[name]);
  }

  /** No two hypervisors share an address. */
  ghost predicate AddressesApart(hypervisors: map<string, HypervisorObject>) {
    forall g, h :: g in hypervisors && h in hypervisors && g != h ==> hypervisors[g].ipAddress != hypervisors[h].ipAddress
  }
}
