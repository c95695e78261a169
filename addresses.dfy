/**
 * `getAllLocalIPs` and the choice of the two LCD lines. The interface list
 * that `getifaddrs` returns is an input sequence; each entry carries the
 * text `inet_ntop` would write for its address.
 */
module Addresses {
  import opened Wrappers

  /** `MAX_IPS`: the number of slots in the returned array. */
  const MAX_IPS: nat := 10
  const LOOPBACK: string := "127.0.0.1"

  datatype Family = Inet | Inet6 | OtherFamily(code: int)

  /** An interface address: its family and its text form. */
  datatype SockAddr = SockAddr(family: Family, text: string)

  /** One entry of the interface list; `ifa_addr` may be NULL. */
  datatype Interface = Interface(addr: Option<SockAddr>)

  /** An entry `getAllLocalIPs(ipv6)` stores. */
  predicate Wanted(ifa: Interface, ipv6: bool)
  {
    ifa.addr.Some? &&
    ((ifa.addr.value.family == Inet && !ipv6 && ifa.addr.value.text != LOOPBACK) ||
     (ifa.addr.value.family == Inet6 && ipv6))
  }

  /** The texts of the wanted entries, in interface-list order, with no limit. */
  function Selected(ifs: seq<Interface>, ipv6: bool): (r: seq<string>)
  {
    if ifs == [] then []
    else
      var last := ifs[|ifs| - 1];
      Selected(ifs[..|ifs| - 1], ipv6) + (if Wanted(last, ipv6) then [last.addr.value.text] else [])
  }

  /** The addresses collected: the first `MAX_IPS` selected ones. */
  function Collected(ifs: seq<Interface>, ipv6: bool): (c: seq<string>)
    ensures |c| <= MAX_IPS
  {
    var s := Selected(ifs, ipv6);
    if |s| <= MAX_IPS then s else s[..MAX_IPS]
  }

  /** The returned array: the collected addresses, then NULL in every later slot. */
  function AddressSlots(ifs: seq<Interface>, ipv6: bool): (slots: seq<Option<string>>)
    ensures |slots| == MAX_IPS
  {
    var c := Collected(ifs, ipv6);
    seq(MAX_IPS, i requires 0 <= i < MAX_IPS => if i < |c| then Some(c[i]) else None)
  }

  /** Selection distributes over the concatenation of interface lists. */
  lemma {:induction false} SelectedAppend(a: seq<Interface>, b: seq<Interface>, ipv6: bool)
    ensures Selected(a + b, ipv6) == Selected(a, ipv6) + Selected(b, ipv6)
    decreases |b|
  {
    if b == [] {
      assert a + b == a;
    } else {
      var b' := b[..|b| - 1];
      assert (a + b)[..|a + b| - 1] == a + b';
      assert b[..|b| - 1] == b';
      SelectedAppend(a, b', ipv6);
    }
  }

  /** One more entry of the list adds its text when it is wanted, and nothing otherwise. */
  lemma SelectedStep(ifs: seq<Interface>, j: nat, ipv6: bool)
    requires j < |ifs|
    ensures Selected(ifs[..j + 1], ipv6) ==
      Selected(ifs[..j], ipv6) + (if Wanted(ifs[j], ipv6) then [ifs[j].addr.value.text] else [])
  {
    assert ifs[..j + 1][..j] == ifs[..j];
  }

  /** Once the walk stops, the addresses held are the collected ones. */
  lemma CollectedAtStop(ifs: seq<Interface>, j: nat, ipv6: bool)
    requires j <= |ifs|
    requires j == |ifs| || |Selected(ifs[..j], ipv6)| == MAX_IPS
    requires |Selected(ifs[..j], ipv6)| <= MAX_IPS
    ensures Collected(ifs, ipv6) == Selected(ifs[..j], ipv6)
  {
    assert ifs == ifs[..j] + ifs[j..];
    SelectedAppend(ifs[..j], ifs[j..], ipv6);
  }

  /**
   * An address text is selected iff some entry of the list has an address,
   * is of the requested family, carries that text and, in IPv4 mode, is
   * not the loopback address.
   */
  lemma {:induction false} SelectedMembers(ifs: seq<Interface>, ipv6: bool, x: string)
    ensures x in Selected(ifs, ipv6) <==>
      exists k | 0 <= k < |ifs| :: Wanted(ifs[k], ipv6) && ifs[k].addr.value.text == x
  {
    if ifs != [] {
      var init := ifs[..|ifs| - 1];
      SelectedMembers(init, ipv6, x);
      if k :| 0 <= k < |init| && Wanted(init[k], ipv6) && init[k].addr.value.text == x {
        assert ifs[k] == init[k];
      }
      if k :| 0 <= k < |ifs| && Wanted(ifs[k], ipv6) && ifs[k].addr.value.text == x {
        if k < |init| { assert init[k] == ifs[k]; }
      }
    }
  }

  /**
   * The shape of the returned array: `MAX_IPS` slots, the collected
   * addresses filling a prefix and NULL after it; traversal stops once
   * `MAX_IPS` addresses are held, so the prefix is `MAX_IPS` long exactly
   * when at least that many entries qualify.
   */
  lemma SlotsShape(ifs: seq<Interface>, ipv6: bool)
    ensures var slots := AddressSlots(ifs, ipv6); var n := |Collected(ifs, ipv6)|;
      && (n == MAX_IPS <==> |Selected(ifs, ipv6)| >= MAX_IPS)
      && (n < MAX_IPS ==> n == |Selected(ifs, ipv6)|)
      && (forall i | 0 <= i < MAX_IPS :: slots[i].Some? <==> i < n)
      && (forall i | 0 <= i < n :: slots[i] == Some(Selected(ifs, ipv6)[i]))
  {
  }

  /**
   * In IPv4 mode every collected address is the text of an IPv4 entry and
   * is never "127.0.0.1"; in IPv6 mode every collected address is the text
   * of an IPv6 entry, the loopback "::1" included.
   */
  lemma CollectedFamilies(ifs: seq<Interface>, ipv6: bool, x: string)
    requires x in Collected(ifs, ipv6)
    ensures !ipv6 ==> x != LOOPBACK
    ensures exists k | 0 <= k < |ifs| ::
      ifs[k].addr == Some(SockAddr(if ipv6 then Inet6 else Inet, x))
  {
    var s := Selected(ifs, ipv6);
    assert x in s by {
      if |s| > MAX_IPS {
        var i :| 0 <= i < MAX_IPS && s[..MAX_IPS][i] == x;
        assert s[i] == x;
      }
    }
    SelectedMembers(ifs, ipv6, x);
    var k :| 0 <= k < |ifs| && Wanted(ifs[k], ipv6) && ifs[k].addr.value.text == x;
    assert ifs[k].addr == Some(SockAddr(if ipv6 then Inet6 else Inet, x));
  }

  /**
   * `getAllLocalIPs(ipv6)`: null all `MAX_IPS` slots, then walk the
   * interface list, storing each wanted address in the next free slot,
   * until the list ends or every slot is used.
   */
  method GetAllLocalIPs(ifs: seq<Interface>, ipv6: bool) returns (ips: array<Option<string>>)
    ensures fresh(ips) && ips[..] == AddressSlots(ifs, ipv6)
  {
    ips := new Option<string>[MAX_IPS];
    var i := 0;
    while i < MAX_IPS
      invariant 0 <= i <= MAX_IPS
      invariant forall t | 0 <= t < i :: ips[t] == None
    {
      ips[i] := None;
      i := i + 1;
    }
    i := 0;
    var j := 0;
    while j < |ifs| && i < MAX_IPS
      invariant 0 <= j <= |ifs|
      invariant i == |Selected(ifs[..j], ipv6)| <= MAX_IPS
      invariant forall t | 0 <= t < MAX_IPS ::
        ips[t] == if t < i then Some(Selected(ifs[..j], ipv6)[t]) else None
    {
      SelectedStep(ifs, j, ipv6);
      var ifa := ifs[j];
      if ifa.addr.None? {
        j := j + 1;
        continue;
      }
      var sa := ifa.addr.value;
      if sa.family == Inet && !ipv6 {
        if sa.text != LOOPBACK {
          ips[i] := Some(sa.text);
          i := i + 1;
        }
      } else if sa.family == Inet6 && ipv6 {
        ips[i] := Some(sa.text);
        i := i + 1;
      }
      j := j + 1;
    }
    CollectedAtStop(ifs, j, ipv6);
  }

  /** The two strings handed to `lcdPuts`, for rows 0 and 1. */
  datatype Lines = Lines(top: string, bottom: string)

  /** The display choice in the main loop, from the slots `getAllLocalIPs` returned. */
  function Display(ips: seq<Option<string>>): (lines: Lines)
    requires |ips| == MAX_IPS
    ensures ips[0].None? ==> lines == Lines("", "")
    ensures ips[0].Some? ==> lines.top == ips[0].value
    ensures ips[0].Some? ==> lines.bottom == (if ips[1].Some? then ips[1].value else "")
  {
    if ips[0].None? then Lines("", "")
    else Lines(ips[0].value, if ips[1].Some? then ips[1].value else "")
  }

  /** The `i`-th collected address, or the empty string when there is none. */
  function NthOrEmpty(c: seq<string>, i: nat): string
  {
    if i < |c| then c[i] else ""
  }

  /**
   * The LCD shows the first two IPv4 addresses the interface list yields,
   * a blank row for each that is missing, and never the loopback address.
   */
  lemma DisplayOfCollected(ifs: seq<Interface>)
    ensures var c := Collected(ifs, false);
      Display(AddressSlots(ifs, false)) == Lines(NthOrEmpty(c, 0), NthOrEmpty(c, 1))
    ensures Display(AddressSlots(ifs, false)).top != LOOPBACK
    ensures Display(AddressSlots(ifs, false)).bottom != LOOPBACK
  {
    var c := Collected(ifs, false);
    if |c| > 0 { CollectedFamilies(ifs, false, c[0]); }
    if |c| > 1 { CollectedFamilies(ifs, false, c[1]); }
  }
}
