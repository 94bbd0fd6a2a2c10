/** Delta frames: a header with a 16-bit mask of the fields that changed, then the payload. */
module Delta {
  import opened Wrappers
  import opened Bytes

  type Name = seq<byte>

  const FRAME_FULL: byte := 0
  const FRAME_DELTA: byte := 1
  const MASK_BITS: nat := 16

  // ---------------------------------------------------------------- frames

  datatype Error = EmptyFrame | TooShort(length: nat) | UnknownType(tag: byte)

  datatype Header = Header(tag: byte, mask: nat)

  function WrapFull(payload: seq<byte>): seq<byte> {
    [FRAME_FULL] + payload
  }

  function WrapDelta(mask: nat, payload: seq<byte>): seq<byte>
    requires mask < 65536
  {
    [FRAME_DELTA, mask / 256, mask % 256] + payload
  }

  function ParseHeader(frame: seq<byte>): Result<Header, Error> {
    if frame == [] then Failure(EmptyFrame)
    else if frame[0] == FRAME_FULL then Success(Header(FRAME_FULL, 0))
    else if frame[0] == FRAME_DELTA then
      if |frame| < 3 then Failure(TooShort(|frame|))
      else
        var high: nat := frame[1];
        Success(Header(FRAME_DELTA, high * 256 + frame[2]))
    else Failure(UnknownType(frame[0]))
  }

  function GetPayload(frame: seq<byte>): Result<seq<byte>, Error> {
    if frame == [] then Failure(EmptyFrame)
    else if frame[0] == FRAME_FULL then Success(frame[1..])
    else if frame[0] == FRAME_DELTA then
      if |frame| < 3 then Failure(TooShort(|frame|)) else Success(frame[3..])
    else Failure(UnknownType(frame[0]))
  }

  /** Parsing inverts wrapping, for frames of both kinds. */
  lemma FramesRoundTrip(mask: nat, payload: seq<byte>)
    requires mask < 65536
    ensures ParseHeader(WrapFull(payload)) == Success(Header(FRAME_FULL, 0))
    ensures GetPayload(WrapFull(payload)) == Success(payload)
    ensures ParseHeader(WrapDelta(mask, payload)) == Success(Header(FRAME_DELTA, mask))
    ensures GetPayload(WrapDelta(mask, payload)) == Success(payload)
  {
    assert WrapFull(payload)[1..] == payload;
    assert WrapDelta(mask, payload)[3..] == payload;
  }

  /** Wrapping inverts parsing: a frame is read exactly when it was wrapped, and then in one way only. */
  lemma ParsedFramesRewrap(frame: seq<byte>)
    ensures ParseHeader(frame).Success? <==> GetPayload(frame).Success?
    ensures ParseHeader(frame).Success? ==>
              var h, payload := ParseHeader(frame).value, GetPayload(frame).value;
              h.mask < 65536 && frame == if h.tag == FRAME_FULL then WrapFull(payload) else WrapDelta(h.mask, payload)
    ensures ParseHeader(frame).Failure? <==>
            frame == [] || frame[0] > FRAME_DELTA || (frame[0] == FRAME_DELTA && |frame| < 3)
  {
    if ParseHeader(frame).Success? {
      if frame[0] == FRAME_FULL {
        assert frame == [frame[0]] + frame[1..];
      } else {
        assert frame == [frame[0], frame[1], frame[2]] + frame[3..];
      }
    }
  }

  /** On the wire: a type byte, for a delta its mask with the high byte first, then the payload. */
  lemma FrameLayout(mask: nat, payload: seq<byte>)
    requires mask < 65536
    ensures WrapFull(payload)[0] == 0 && WrapFull(payload)[1..] == payload
    ensures var frame := WrapDelta(mask, payload);
            && |frame| == 3 + |payload| && frame[0] == 1 && frame[3..] == payload
            && frame[1] as int * 256 + frame[2] == mask
  {
  }

  // ---------------------------------------------------------------- bits

  lemma {:induction false} TopBit(mask: nat, n: nat)
    requires mask < Pow2(n)
    ensures !Bit(mask, n) && Bit(mask + Pow2(n), n)
    ensures forall i :: 0 <= i < n ==> Bit(mask + Pow2(n), i) == Bit(mask, i)
  {
    if n > 0 {
      TopBit(mask / 2, n - 1);
      assert (mask + Pow2(n)) / 2 == mask / 2 + Pow2(n - 1);
    }
  }

  lemma {:induction false} NoBitBeyond(mask: nat, n: nat, i: nat)
    requires mask < Pow2(n) && n <= i
    ensures !Bit(mask, i)
  {
    if n > 0 {
      NoBitBeyond(mask / 2, n - 1, i - 1);
    } else if i > 0 {
      NoBitBeyond(mask / 2, 0, i - 1);
    }
  }

  lemma {:induction false} NoBitIsZero(mask: nat)
    requires forall i: nat :: !Bit(mask, i)
    ensures mask == 0
  {
    assert !Bit(mask, 0);
    if mask > 0 {
      forall i: nat
        ensures !Bit(mask / 2, i)
      {
        assert !Bit(mask, i + 1);
      }
      NoBitIsZero(mask / 2);
    }
  }

  ghost predicate NoBitFrom(mask: nat, n: nat) {
    forall i: nat :: i >= n ==> !Bit(mask, i)
  }

  /** A mask below 2^n is a mask with no bit from n on. */
  lemma {:induction false} BoundIsNoBitBeyond(mask: nat, n: nat)
    ensures mask < Pow2(n) <==> NoBitFrom(mask, n)
    decreases n
  {
    if mask < Pow2(n) {
      forall i: nat | i >= n
        ensures !Bit(mask, i)
      {
        NoBitBeyond(mask, n, i);
      }
    } else if NoBitFrom(mask, n) {
      if n == 0 {
        NoBitIsZero(mask);
      } else {
        forall i: nat | i >= n - 1
          ensures !Bit(mask / 2, i)
        {
          assert !Bit(mask, i + 1);
        }
        BoundIsNoBitBeyond(mask / 2, n - 1);
      }
    }
  }

  /** The bits below n determine a mask below 2^n. */
  lemma {:induction false} BitsDetermine(a: nat, b: nat, n: nat)
    requires a < Pow2(n) && b < Pow2(n)
    requires forall i :: 0 <= i < n ==> Bit(a, i) == Bit(b, i)
    ensures a == b
  {
    if n > 0 {
      assert Bit(a, 0) == Bit(b, 0);
      forall i | 0 <= i < n - 1
        ensures Bit(a / 2, i) == Bit(b / 2, i)
      {
        assert Bit(a, i + 1) == Bit(b, i + 1);
      }
      BitsDetermine(a / 2, b / 2, n - 1);
    }
  }

  /** Bitwise or with one shifted bit. */
  function SetBit(mask: nat, i: nat): nat {
    if Bit(mask, i) then mask else mask + Pow2(i)
  }

  // ---------------------------------------------------------------- masks of changed fields

  function AsSet(names: seq<Name>): set<Name> {
    set name | name in names
  }

  /** How many fields a mask can speak of. */
  function Reach(order: seq<Name>): nat {
    if |order| < MASK_BITS then |order| else MASK_BITS
  }

  function MaskOf(order: seq<Name>, changed: set<Name>, n: nat): (mask: nat)
    requires n <= |order|
    ensures mask < Pow2(n)
  {
    if n == 0 then 0
    else MaskOf(order, changed, n - 1) + if order[n - 1] in changed then Pow2(n - 1) else 0
  }

  /** A bit is set exactly when its field changed. */
  lemma {:induction false} MaskBits(order: seq<Name>, changed: set<Name>, n: nat)
    requires n <= |order|
    ensures forall i :: 0 <= i < n ==> (Bit(MaskOf(order, changed, n), i) <==> order[i] in changed)
  {
    if n > 0 {
      MaskBits(order, changed, n - 1);
      TopBit(MaskOf(order, changed, n - 1), n - 1);
    }
  }

  method ComputeBitmask(order: seq<Name>, changedKeys: seq<Name>) returns (mask: nat)
    ensures mask < Pow2(Reach(order)) && Pow2(Reach(order)) <= 65536
    ensures forall i :: 0 <= i < Reach(order) ==> (Bit(mask, i) <==> order[i] in changedKeys)
    ensures mask == MaskOf(order, AsSet(changedKeys), Reach(order))
    ensures forall i: nat :: Bit(mask, i) <==> i < |order| && i < 16 && order[i] in changedKeys
  {
    var changed := AsSet(changedKeys);
    mask := 0;
    var i := 0;
    while i < |order| && i < 16
      invariant i <= Reach(order) && mask == MaskOf(order, changed, i)
    {
      if order[i] in changed {
        TopBit(mask, i);
        mask := SetBit(mask, i);
      }
      i := i + 1;
    }
    MaskBits(order, changed, i);
    PowersGrow(i, 16);
    BoundIsNoBitBeyond(mask, i);
  }

  lemma {:induction false} PowersGrow(a: nat, b: nat)
    requires a <= b
    ensures Pow2(a) <= Pow2(b) && Pow2(16) == 65536
  {
    assert Pow2(8) == 256;
    assert Pow2(12) == 4096;
    assert Pow2(16) == 65536;
    if a < b {
      PowersGrow(a, b - 1);
    }
  }

  /** The names whose bits are set, in field order. */
  function FieldsOf(order: seq<Name>, mask: nat, n: nat): seq<Name>
    requires n <= |order|
  {
    if n == 0 then []
    else FieldsOf(order, mask, n - 1) + if Bit(mask, n - 1) then [order[n - 1]] else []
  }

  /** The names that changed among the first n, in field order. */
  function ChangedAmong(order: seq<Name>, changed: set<Name>, n: nat): seq<Name>
    requires n <= |order|
  {
    if n == 0 then []
    else ChangedAmong(order, changed, n - 1) + if order[n - 1] in changed then [order[n - 1]] else []
  }

  lemma {:induction false} SameBitsSameFields(order: seq<Name>, mask: nat, changed: set<Name>, n: nat)
    requires n <= |order| && forall i :: 0 <= i < n ==> (Bit(mask, i) <==> order[i] in changed)
    ensures FieldsOf(order, mask, n) == ChangedAmong(order, changed, n)
  {
    if n > 0 {
      SameBitsSameFields(order, mask, changed, n - 1);
    }
  }

  /** Expanding a computed mask gives exactly the changed names among the first 16 fields, in order. */
  lemma ExpandComputed(order: seq<Name>, changed: set<Name>)
    ensures var n := Reach(order);
            FieldsOf(order, MaskOf(order, changed, n), n) == ChangedAmong(order, changed, n)
  {
    MaskBits(order, changed, Reach(order));
    SameBitsSameFields(order, MaskOf(order, changed, Reach(order)), changed, Reach(order));
  }

  lemma {:induction false} FieldListed(order: seq<Name>, mask: nat, n: nat, name: Name)
    requires n <= |order|
    ensures name in FieldsOf(order, mask, n) <==> exists i :: 0 <= i < n && Bit(mask, i) && order[i] == name
  {
    if n > 0 {
      FieldListed(order, mask, n - 1, name);
    }
  }

  /** Expansion lists the fields at the set bits below 16, in field order. */
  lemma ExpandExactly(order: seq<Name>, mask: nat) returns (at: seq<nat>)
    ensures var fields := FieldsOf(order, mask, Reach(order));
            |fields| == |at| && forall t :: 0 <= t < |at| ==> at[t] < |order| && fields[t] == order[at[t]]
    ensures forall a, b :: 0 <= a < b < |at| ==> at[a] < at[b]
    ensures forall i: nat :: i in at <==> i < |order| && i < 16 && Bit(mask, i)
  {
    at := SetBits(order, mask, Reach(order));
  }

  lemma {:induction false} SetBits(order: seq<Name>, mask: nat, n: nat) returns (at: seq<nat>)
    requires n <= |order|
    ensures var fields := FieldsOf(order, mask, n);
            |fields| == |at| && forall t :: 0 <= t < |at| ==> at[t] < n && fields[t] == order[at[t]]
    ensures forall a, b :: 0 <= a < b < |at| ==> at[a] < at[b]
    ensures forall i: nat :: i in at <==> i < n && Bit(mask, i)
  {
    if n == 0 {
      at := [];
    } else {
      OneBitMore(order, mask, n);
      hide FieldsOf, Bit;
      var before := SetBits(order, mask, n - 1);
      at := before;
      if Bit(mask, n - 1) {
        at := before + [n - 1];
        assert forall i: nat :: i in at <==> i in before || i == n - 1;
      }
    }
  }

  lemma OneBitMore(order: seq<Name>, mask: nat, n: nat)
    requires 0 < n <= |order|
    ensures FieldsOf(order, mask, n) == FieldsOf(order, mask, n - 1) + if Bit(mask, n - 1) then [order[n - 1]] else []
  {
  }

  /** Fields of one name have the same bit. */
  predicate NamesAgree(order: seq<Name>, mask: nat, n: nat)
    requires n <= |order|
  {
    forall i, j :: 0 <= i < n && 0 <= j < n && order[i] == order[j] ==> Bit(mask, i) == Bit(mask, j)
  }

  lemma BitKept(order: seq<Name>, mask: nat, n: nat, i: nat)
    requires n <= |order| && i < n && NamesAgree(order, mask, n)
    ensures Bit(mask, i) <==> order[i] in FieldsOf(order, mask, n)
  {
    FieldListed(order, mask, n, order[i]);
  }

  /** Recomputing a mask from its expansion gives the mask back exactly when no bit lies beyond the list and
      fields of one name have the same bit. */
  lemma RecomputeExactly(order: seq<Name>, mask: nat)
    ensures var n := Reach(order);
            MaskOf(order, AsSet(FieldsOf(order, mask, n)), n) == mask <==> mask < Pow2(n) && NamesAgree(order, mask, n)
  {
    var n := Reach(order);
    var listed := AsSet(FieldsOf(order, mask, n));
    var again := MaskOf(order, listed, n);
    MaskBits(order, listed, n);
    assert NamesAgree(order, again, n);
    if mask < Pow2(n) && NamesAgree(order, mask, n) {
      forall i | 0 <= i < n
        ensures Bit(again, i) == Bit(mask, i)
      {
        BitKept(order, mask, n, i);
      }
      BitsDetermine(again, mask, n);
    }
  }

  /** Two masks that do not come back: a bit beyond the list, and one of two fields of the same name. */
  lemma RecomputeFails(name: Name)
    ensures MaskOf([], AsSet(FieldsOf([], 1, 0)), 0) != 1
    ensures MaskOf([name, name], AsSet(FieldsOf([name, name], 1, 2)), 2) != 1
  {
    assert Bit(1, 0) && !Bit(1, 1);
    assert !NamesAgree([name, name], 1, 2);
    RecomputeExactly([name, name], 1);
  }

  /** With distinct fields that is: exactly when no bit lies beyond the list. */
  lemma RecomputeDistinct(order: seq<Name>, mask: nat)
    requires forall i, j :: 0 <= i < j < Reach(order) ==> order[i] != order[j]
    ensures var n := Reach(order); MaskOf(order, AsSet(FieldsOf(order, mask, n)), n) == mask <==> mask < Pow2(n)
  {
    RecomputeExactly(order, mask);
  }

  /** Over the wire: the receiver's expansion of a delta frame is the sender's changed names, payload intact. */
  lemma DeltaSurvivesTheWire(order: seq<Name>, changed: set<Name>, payload: seq<byte>)
    ensures var n := Reach(order);
            MaskOf(order, changed, n) < 65536 &&
            var frame := WrapDelta(MaskOf(order, changed, n), payload);
            ParseHeader(frame).Success? && ParseHeader(frame).value.tag == FRAME_DELTA &&
            FieldsOf(order, ParseHeader(frame).value.mask, n) == ChangedAmong(order, changed, n) &&
            GetPayload(frame) == Success(payload)
  {
    PowersGrow(Reach(order), 16);
    FramesRoundTrip(MaskOf(order, changed, Reach(order)), payload);
    ExpandComputed(order, changed);
  }
}
