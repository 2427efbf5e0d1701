/**
 * Wire layout of a packet payload: after the 8-byte frame header, elements
 * sit in declaration order, each at the running sum of the sizes before it.
 * The request builder, the response parser and the callback parser all
 * place the k-th element of their selection at `Offset(selection, k)`.
 */
module Layout {
  import opened DeviceModel

  /** Size of the frame header that precedes every payload. */
  const HeaderSize: nat := 8

  /** Sum of the encoded sizes of `es`. */
  function SumSizes(es: seq<Element>): nat {
    if es == [] then 0 else SumSizes(es[..|es| - 1]) + Size(es[|es| - 1])
  }

  /** Byte offset of element `k`: the header plus the sizes of elements `0..k-1`. */
  function Offset(es: seq<Element>, k: nat): nat
    requires k <= |es|
  {
    HeaderSize + SumSizes(es[..k])
  }

  /** `get_request_size()`: the header plus the sizes of the `in` elements. */
  function RequestSize(p: Packet): nat {
    HeaderSize + SumSizes(Ins(p))
  }

  /** The running-sum rule: the next offset is this offset plus this element's size. */
  lemma OffsetStep(es: seq<Element>, k: nat)
    requires k < |es|
    ensures Offset(es, k + 1) == Offset(es, k) + Size(es[k])
    ensures Offset(es, 0) == HeaderSize
  {
    assert es[..k + 1][..k] == es[..k];
  }

  lemma {:induction false} OffsetMonotone(es: seq<Element>, j: nat, k: nat)
    requires j <= k <= |es|
    ensures Offset(es, j) <= Offset(es, k)
    decreases k - j
  {
    if j < k {
      OffsetStep(es, k - 1);
      OffsetMonotone(es, j, k - 1);
    }
  }

  /** Every element, also the only element of a one-element list, lies between the header and the end of the payload. */
  lemma InFrame(es: seq<Element>, k: nat)
    requires k < |es|
    ensures HeaderSize <= Offset(es, k) && Offset(es, k) + Size(es[k]) <= Offset(es, |es|)
  {
    OffsetMonotone(es, 0, k);
    OffsetStep(es, k);
    OffsetMonotone(es, k + 1, |es|);
  }

  /**
   * Elements occupy disjoint byte ranges inside the frame: element `j` ends
   * no later than any later element `k` starts, and both lie between the
   * header and the end of the payload.
   */
  lemma FieldsDisjointAndInFrame(es: seq<Element>, j: nat, k: nat)
    requires j < k < |es|
    ensures Offset(es, j) + Size(es[j]) <= Offset(es, k)
    ensures HeaderSize <= Offset(es, j) && Offset(es, k) + Size(es[k]) <= Offset(es, |es|)
  {
    OffsetStep(es, j);
    OffsetMonotone(es, j + 1, k);
    InFrame(es, j);
    InFrame(es, k);
  }

  /** The payload size splits over a concatenation of element lists. */
  lemma {:induction false} SumSizesAppend(a: seq<Element>, b: seq<Element>)
    ensures SumSizes(a + b) == SumSizes(a) + SumSizes(b)
    decreases |b|
  {
    if b == [] {
      assert a + b == a;
    } else {
      var b' := b[..|b| - 1];
      assert (a + b)[..|a + b| - 1] == a + b';
      assert (a + b)[|a + b| - 1] == b[|b| - 1];
      SumSizesAppend(a, b');
    }
  }

  /** The request size is where the request builder's counter ends. */
  lemma RequestSizeIsEndOfRequest(p: Packet)
    ensures RequestSize(p) == Offset(Ins(p), |Ins(p)|)
  {
    assert Ins(p)[..|Ins(p)|] == Ins(p);
  }

  /** The element types of the EVSE Bricklet's `Get State` response, each of cardinality 1. */
  const GetStateTypes: seq<ElementType> := [UInt8, UInt8, UInt8, UInt8, UInt8, UInt16, UInt8, UInt8, UInt32, UInt32]

  /**
   * The `Get State` function of the EVSE Bricklet: whatever the element
   * names, ten `out` elements of types uint8 x5, uint16, uint8 x2 and
   * uint32 x2 are read at offsets 8, 9, 10, 11, 12, 13, 15, 16, 17 and 21,
   * and the response ends at 25.
   */
  lemma GetStateLayout(es: seq<Element>)
    requires |es| == |GetStateTypes|
    requires forall k :: 0 <= k < |es| ==> es[k].etype == GetStateTypes[k] && es[k].cardinality == 1
    ensures Offset(es, 1) == 9 && Offset(es, 2) == 10 && Offset(es, 3) == 11 && Offset(es, 4) == 12
    ensures Offset(es, 5) == 13 && Offset(es, 6) == 15 && Offset(es, 7) == 16 &&
            Offset(es, 8) == 17 && Offset(es, 9) == 21 && Offset(es, 10) == 25
  {
    OffsetStep(es, 0);
    assert Offset(es, 1) == 9 by { assert es[0].etype == GetStateTypes[0]; }
    OffsetStep(es, 1);
    assert Offset(es, 2) == 10 by { assert es[1].etype == GetStateTypes[1]; }
    OffsetStep(es, 2);
    assert Offset(es, 3) == 11 by { assert es[2].etype == GetStateTypes[2]; }
    OffsetStep(es, 3);
    assert Offset(es, 4) == 12 by { assert es[3].etype == GetStateTypes[3]; }
    OffsetStep(es, 4);
    assert Offset(es, 5) == 13 by { assert es[4].etype == GetStateTypes[4]; }
    OffsetStep(es, 5);
    assert Offset(es, 6) == 15 by { assert es[5].etype == GetStateTypes[5]; }
    OffsetStep(es, 6);
    assert Offset(es, 7) == 16 by { assert es[6].etype == GetStateTypes[6]; }
    OffsetStep(es, 7);
    assert Offset(es, 8) == 17 by { assert es[7].etype == GetStateTypes[7]; }
    OffsetStep(es, 8);
    assert Offset(es, 9) == 21 by { assert es[8].etype == GetStateTypes[8]; }
    OffsetStep(es, 9);
    assert Offset(es, 10) == 25 by { assert es[9].etype == GetStateTypes[9]; }
  }
}
