/**
 The DNS list of an IPv4 configuration, with its fallback to the old integer property:
 `_ip4_details` (src/appliance_admin/daemon/managers/network.py).
 */
module Nameservers {
  import opened Wrappers

  const WORD := 0x1_0000_0000

  /** An integer that does not fit in four bytes; the source suppresses ValueError, which this is not. */
  datatype DnsError = Overflow(raw: int)

  function Digit(n: nat): char
    requires n < 10
  {
    ('0' as int + n) as char
  }

  function Decimal(n: nat): string {
    if n < 10 then [Digit(n)] else Decimal(n / 10) + [Digit(n % 10)]
  }

  /** The address whose bytes are those of `raw` in little-endian order, printed most significant byte first. */
  function Quad(raw: nat): string
    requires raw < WORD
  {
    Decimal(raw % 256) + "." + Decimal(raw / 0x100 % 256) + "."
    + Decimal(raw / 0x1_0000 % 256) + "." + Decimal(raw / 0x100_0000)
  }

  /** The addresses that entries of the newer property carry. */
  function Present(data: seq<Option<string>>): seq<string> {
    if data == [] then []
    else
      var n := |data| - 1;
      Present(data[..n]) + if data[n].Some? then [data[n].value] else []
  }

  /** `out` are the addresses at the positions `at`, which are in order and are all those with an address. */
  predicate Picked(data: seq<Option<string>>, at: seq<nat>, out: seq<string>) {
    && |at| == |out|
    && (forall i, j | 0 <= i < j < |at| :: at[i] < at[j])
    && (forall i | 0 <= i < |at| :: at[i] < |data| && data[at[i]] == Some(out[i]))
    && (forall k: nat | k < |data| && data[k].Some? :: k in at)
  }

  lemma {:induction false} PresentInOrder(data: seq<Option<string>>) returns (at: seq<nat>)
    ensures Picked(data, at, Present(data))
  {
    hide Picked;
    at := [];
    if data == [] {
      PickedNothing();
    } else {
      var n := |data| - 1;
      at := PresentInOrder(data[..n]);
      PickedSnoc(data[..n], at, Present(data[..n]), data[n]);
      assert data[..n] + [data[n]] == data;
      assert Present(data[..n]) + [] == Present(data[..n]);
      at := if data[n].Some? then at + [n] else at;
    }
  }

  lemma {:induction false} PickedNothing()
    ensures Picked([], [], Present([]))
  {
  }

  lemma {:induction false} PickedSnoc(data: seq<Option<string>>, at: seq<nat>, out: seq<string>, d: Option<string>)
    requires Picked(data, at, out)
    ensures if d.Some? then Picked(data + [d], at + [|data|], out + [d.value]) else Picked(data + [d], at, out)
  {
    var more := data + [d];
    assert forall k | 0 <= k < |data| :: more[k] == data[k];
    if d.Some? {
      var ends := at + [|data|];
      forall k: nat | k < |more| && more[k].Some? ensures k in ends {
        assert k < |data| ==> k in at;
        assert k == |data| ==> ends[|at|] == k;
      }
    }
  }

  lemma {:induction false} PresentAny(data: seq<Option<string>>)
    ensures Present(data) == [] <==> forall k | 0 <= k < |data| :: data[k].None?
  {
    var at := PresentInOrder(data);
    if Present(data) != [] {
      assert data[at[0]].Some?;
    }
  }

  method DnsServers(data: seq<Option<string>>, nameservers: seq<int>)
    returns (r: Result<seq<string>, DnsError>, ghost at: seq<nat>)
    ensures r.Err? <==> (forall k | 0 <= k < |data| :: data[k].None?)
                        && exists i :: 0 <= i < |nameservers| && !(0 <= nameservers[i] < WORD)
    ensures r.Err? ==> exists i :: 0 <= i < |nameservers| && r.error == Overflow(nameservers[i])
                                   && !(0 <= nameservers[i] < WORD)
                                   && forall k | 0 <= k < i :: 0 <= nameservers[k] < WORD
    ensures r.Ok? && (exists k :: 0 <= k < |data| && data[k].Some?) ==> Picked(data, at, r.value)
    ensures r.Ok? && (forall k | 0 <= k < |data| :: data[k].None?) ==>
              |r.value| == |nameservers|
              && forall i | 0 <= i < |nameservers| :: ReadBack(r.value[i]) == Some(nameservers[i])
  {
    hide Quad, ReadBack;
    var dns: seq<string> := [];
    for i := 0 to |data|
      invariant dns == Present(data[..i])
    {
      assert data[..i + 1][..i] == data[..i];
      if data[i].Some? {
        dns := dns + [data[i].value];
      }
    }
    assert data[..|data|] == data;
    at := PresentInOrder(data);
    PresentAny(data);
    hide Picked;
    if dns == [] {
      for i := 0 to |nameservers|
        invariant |dns| == i
        invariant forall k | 0 <= k < i :: 0 <= nameservers[k] < WORD && ReadBack(dns[k]) == Some(nameservers[k])
      {
        var raw := nameservers[i];
        if !(0 <= raw < WORD) {
          return Err(Overflow(raw)), at;
        }
        QuadRoundTrip(raw);
        dns := dns + [Quad(raw)];
      }
    }
    return Ok(dns), at;
  }

  // ----------------------------------------------------------------------- reading back

  /** The numbers of a dotted text, `acc` being the one under way. */
  function Numbers(s: string, acc: nat): Option<seq<nat>> {
    if s == "" then Some([acc])
    else if s[0] == '.' then
      var rest := Numbers(s[1..], 0);
      if rest.Some? then Some([acc] + rest.value) else None
    else if '0' <= s[0] <= '9' then Numbers(s[1..], 10 * acc + (s[0] as int - '0' as int))
    else None
  }

  /** A dotted quad read as four bytes in little-endian order. */
  function ReadBack(s: string): Option<nat> {
    var n := Numbers(s, 0);
    if n.Some? && |n.value| == 4 && forall i | 0 <= i < 4 :: n.value[i] < 256
    then Some(n.value[0] + 0x100 * n.value[1] + 0x1_0000 * n.value[2] + 0x100_0000 * n.value[3])
    else None
  }

  /** The first byte printed is the lowest of the word, as the old property has it. */
  lemma {:induction false} LowestByteFirst()
    ensures Quad(0x0403_0201) == "1.2.3.4"
  {
    var raw := 0x0403_0201;
    assert raw % 256 == 1 && raw / 0x100 % 256 == 2 && raw / 0x1_0000 % 256 == 3 && raw / 0x100_0000 == 4;
    assert Decimal(1) == "1" && Decimal(2) == "2" && Decimal(3) == "3" && Decimal(4) == "4";
    hide Decimal;
  }

  /** Numbers are printed without leading zeros. */
  lemma {:induction false} DecimalCanonical(n: nat)
    ensures Decimal(n) != "" && (Decimal(n)[0] == '0' <==> n == 0) && (n == 0 ==> Decimal(n) == "0")
  {
    if 10 <= n {
      DecimalCanonical(n / 10);
    }
  }

  lemma {:induction false} DecimalReads(n: nat, rest: string)
    ensures Numbers(Decimal(n) + rest, 0) == Numbers(rest, n)
  {
    if n < 10 {
      assert (Decimal(n) + rest)[1..] == rest;
    } else {
      var tail := [Digit(n % 10)] + rest;
      assert Decimal(n) + rest == Decimal(n / 10) + tail;
      DecimalReads(n / 10, tail);
      assert tail[1..] == rest;
    }
  }

  /** One number, a dot, and the rest. */
  lemma {:induction false} DottedReads(n: nat, s: string, rest: seq<nat>)
    requires Numbers(s, 0) == Some(rest)
    ensures Numbers(Decimal(n) + ("." + s), 0) == Some([n] + rest)
  {
    hide Decimal;
    DecimalReads(n, "." + s);
    assert ("." + s)[1..] == s;
  }

  lemma {:induction false} LastReads(n: nat)
    ensures Numbers(Decimal(n), 0) == Some([n])
  {
    DecimalReads(n, "");
    assert Decimal(n) + "" == Decimal(n);
  }

  lemma {:induction false} SecondByte(n: nat)
    ensures n / 0x1_0000 == n / 0x100 / 0x100
  {
    var q := n / 0x100;
    assert n == 0x1_0000 * (q / 0x100) + (0x100 * (q % 0x100) + n % 0x100);
  }

  lemma {:induction false} ThirdByte(n: nat)
    ensures n / 0x100_0000 == n / 0x1_0000 / 0x100
  {
    var q := n / 0x1_0000;
    assert n == 0x100_0000 * (q / 0x100) + (0x1_0000 * (q % 0x100) + n % 0x1_0000);
  }

  lemma {:induction false} FourBytes(raw: nat)
    requires raw < WORD
    ensures raw / 0x100_0000 < 256
    ensures raw == raw % 256 + 0x100 * (raw / 0x100 % 256) + 0x1_0000 * (raw / 0x1_0000 % 256)
                   + 0x100_0000 * (raw / 0x100_0000)
  {
    SecondByte(raw);
    ThirdByte(raw);
    var b, c, d := raw / 0x100, raw / 0x1_0000, raw / 0x100_0000;
    assert raw == raw % 256 + 0x100 * b;
    assert b == b % 256 + 0x100 * c;
    assert c == c % 256 + 0x100 * d;
  }

  /** Every 32-bit word survives the trip through its dotted quad. */
  lemma {:induction false} QuadRoundTrip(raw: nat)
    requires raw < WORD
    ensures ReadBack(Quad(raw)) == Some(raw)
  {
    var a, b, c, d := raw % 256, raw / 0x100 % 256, raw / 0x1_0000 % 256, raw / 0x100_0000;
    QuadNumbers(a, b, c, d);
    hide Numbers, Decimal;
    FourBytes(raw);
  }

  lemma {:induction false} QuadNumbers(a: nat, b: nat, c: nat, d: nat)
    ensures Numbers(Decimal(a) + "." + Decimal(b) + "." + Decimal(c) + "." + Decimal(d), 0) == Some([a, b, c, d])
  {
    hide Numbers, Decimal;
    var ofC := Decimal(c) + ("." + Decimal(d));
    var ofB := Decimal(b) + ("." + ofC);
    LastReads(d);
    DottedReads(c, Decimal(d), [d]);
    DottedReads(b, ofC, [c] + [d]);
    DottedReads(a, ofB, [b] + ([c] + [d]));
    assert Decimal(a) + "." + Decimal(b) + "." + Decimal(c) + "." + Decimal(d) == Decimal(a) + ("." + ofB);
    assert [a] + ([b] + ([c] + [d])) == [a, b, c, d];
  }
}
