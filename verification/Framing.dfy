// The preimage that Hash of backend/internal/geometry/geometry.go feeds to the
// digest: every part followed by a NUL.

module Framing {

  const NUL := '\0'

  function Frame(parts: seq<string>): string {
    if parts == [] then [] else parts[0] + [NUL] + Frame(parts[1..])
  }

  method Preimage(parts: seq<string>) returns (written: string)
    ensures written == Frame(parts)
  {
    written := [];
    for i := 0 to |parts|
      invariant written + Frame(parts[i..]) == Frame(parts)
    {
      written := written + parts[i];
      written := written + [NUL];
      assert parts[i..][1..] == parts[i + 1..];
    }
    assert parts[|parts|..] == [];
  }

  ghost predicate NulFree(parts: seq<string>) {
    forall i :: 0 <= i < |parts| ==> NUL !in parts[i]
  }

  lemma HeadEnds(parts: seq<string>)
    requires NulFree(parts) && parts != []
    ensures |parts[0]| < |Frame(parts)| && Frame(parts)[|parts[0]|] == NUL
    ensures forall k :: 0 <= k < |parts[0]| ==> Frame(parts)[k] == parts[0][k] != NUL
    ensures Frame(parts)[|parts[0]| + 1..] == Frame(parts[1..])
  {
    var head, tail := parts[0] + [NUL], Frame(parts[1..]);
    assert Frame(parts) == head + tail;
    assert NUL !in parts[0];
    forall k | 0 <= k < |parts[0]| ensures Frame(parts)[k] == parts[0][k] != NUL {
      assert (head + tail)[k] == head[k] == parts[0][k];
      assert parts[0][k] in parts[0];
    }
  }

  // Different lists of NUL-free parts have different preimages.
  lemma {:induction false} FrameInjective(a: seq<string>, b: seq<string>)
    requires NulFree(a) && NulFree(b) && Frame(a) == Frame(b)
    ensures a == b
  {
    if a == [] || b == [] {
      if a != [] {
        HeadEnds(a);
      } else if b != [] {
        HeadEnds(b);
      }
    } else {
      HeadEnds(a);
      HeadEnds(b);
      assert |a[0]| == |b[0]|;
      assert a[0] == b[0];
      FrameInjective(a[1..], b[1..]);
      assert a == [a[0]] + a[1..] && b == [b[0]] + b[1..];
    }
  }

  // A part that contains the separator can collide with two parts.
  lemma NulCollides()
    ensures Frame(["a", "b"]) == Frame([['a', NUL, 'b']])
  {
    assert Frame(["a", "b"][1..]) == "b" + [NUL] + Frame(["a", "b"][2..]);
    assert Frame([['a', NUL, 'b']][1..]) == [];
    assert Frame(["a", "b"]) == ['a', NUL, 'b', NUL];
  }
}
