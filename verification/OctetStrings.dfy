/**
 Numbers as octets, the most significant one first.
 */
module OctetStrings {
  import opened MachineWords

  /** The `n` octets of a number, the most significant one first. */
  function Octets(x: nat, n: nat): (octets: seq<Byte>)
    ensures |octets| == n
  {
    if n == 0 then [] else Octets(x / 0x100, n - 1) + [x % 0x100]
  }

  lemma OctetsAppend(x: nat, b: Byte, n: nat)
    ensures Octets(x * 0x100 + b as int, n + 1) == Octets(x, n) + [b]
  {
    assert (x * 0x100 + b as int) / 0x100 == x && (x * 0x100 + b as int) % 0x100 == b as int;
  }

  lemma FourOctets(a: Byte, b: Byte, c: Byte, d: Byte)
    ensures Octets((a as int * 0x100 + b as int) * 0x1_0000 + (c as int * 0x100 + d as int), 4) == [a, b, c, d]
  {
    var ab := a as int * 0x100 + b as int;
    var abc := ab * 0x100 + c as int;
    OctetsAppend(0, a, 0);
    OctetsAppend(a as int, b, 1);
    OctetsAppend(ab, c, 2);
    OctetsAppend(abc, d, 3);
    assert abc * 0x100 + d as int == ab * 0x1_0000 + (c as int * 0x100 + d as int);
  }

  lemma TwoOctets(a: Byte, b: Byte)
    ensures Octets(a as int * 0x100 + b as int, 2) == [a, b]
  {
    OctetsAppend(0, a, 0);
    OctetsAppend(a as int, b, 1);
  }

  /** The number the octets stand for. */
  function Number(octets: seq<Byte>): nat {
    if octets == [] then 0 else Number(octets[..|octets| - 1]) * 0x100 + octets[|octets| - 1] as int
  }

  /** How many numbers `n` octets can tell apart. */
  function Power(n: nat): nat {
    if n == 0 then 1 else 0x100 * Power(n - 1)
  }

  /** A number that fits comes back from its octets. */
  lemma {:induction false} OctetsReadBack(x: nat, n: nat)
    requires x < Power(n)
    ensures Number(Octets(x, n)) == x
  {
    if n > 0 {
      OctetsReadBack(x / 0x100, n - 1);
      assert Octets(x, n)[..n - 1] == Octets(x / 0x100, n - 1);
    }
  }
}
