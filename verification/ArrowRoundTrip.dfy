/** Encoding a column and decoding it again. */
module ArrowRoundTrip {
  import opened Outcomes
  import opened ArrowConversion

  predicate HasType(v: Value, ty: ArrowType) {
    match ty
    case ScalarType(kind) => v.Scalar? && KindOf(v.prim) == kind
    case ListType(kind) => v.List? && v.kind == kind
  }

  /** What one value of a column of type `ty` comes back as. */
  function Decoded(v: Value, ty: ArrowType): Value {
    match ty
    case ScalarType(kind) => if IsNull(v) then Empty else Scalar(GetScalar(v, kind))
    case ListType(kind) => List(kind, Items(v, kind))
  }

  /** A value comes back as itself exactly when it has the column's type, or is the
      empty value of a scalar column. */
  lemma UnchangedIff(v: Value, ty: ArrowType)
    ensures Decoded(v, ty) == v <==> HasType(v, ty) || (v.Empty? && ty.ScalarType?)
  {
  }

  // ---------- The flat child ----------

  lemma {:induction false} FlattenKinds(values: seq<Value>, kind: Kind)
    ensures forall p :: p in Flatten(values, kind) ==> KindOf(p) == kind
  {
    if values != [] { FlattenKinds(values[..|values| - 1], kind); }
  }

  lemma LastStart(values: seq<Value>, kind: Kind)
    requires values != []
    ensures var init := values[..|values| - 1]; Starts(values, kind) == Starts(init, kind) + [|Flatten(init, kind)|]
  {
    hide Flatten;
  }

  lemma {:induction false} StartsAreLengths(values: seq<Value>, kind: Kind, i: nat)
    requires i < |values|
    ensures Starts(values, kind)[i] == |Flatten(values[..i], kind)|
  {
    LastStart(values, kind);
    hide Starts, Flatten;
    var init := values[..|values| - 1];
    if i < |init| {
      StartsAreLengths(init, kind, i);
      assert init[..i] == values[..i];
    } else {
      assert init == values[..i];
    }
  }

  lemma {:induction false} FlattenGrows(values: seq<Value>, kind: Kind, i: nat)
    requires i <= |values|
    ensures Flatten(values[..i], kind) <= Flatten(values, kind)
    decreases |values|
  {
    if i < |values| {
      var init := values[..|values| - 1];
      assert init[..i] == values[..i];
      FlattenGrows(init, kind, i);
    } else {
      assert values[..i] == values;
    }
  }

  /** The offsets of the encoded list column: one per prefix of the values. */
  lemma OffsetsAreLengths(values: seq<Value>, kind: Kind, i: nat)
    requires i <= |values|
    ensures Encoded(values, ListType(kind)).offsets[i] == |Flatten(values[..i], kind)|
  {
    if i < |values| {
      StartsAreLengths(values, kind, i);
    } else {
      assert values[..i] == values;
    }
  }

  /** The slice of the flat child between two offsets is exactly the original list. */
  lemma {:induction false} SliceIsItems(values: seq<Value>, kind: Kind, i: nat)
    requires i < |values|
    ensures var a, b := |Flatten(values[..i], kind)|, |Flatten(values[..i + 1], kind)|;
      a <= b <= |Flatten(values, kind)| && Flatten(values, kind)[a..b] == Items(values[i], kind)
  {
    FlattenGrows(values, kind, i + 1);
    assert values[..i + 1][..i] == values[..i];
    var all, upTo, before := Flatten(values, kind), Flatten(values[..i + 1], kind), Flatten(values[..i], kind);
    assert upTo == before + Items(values[i], kind);
    assert all[..|upTo|] == upTo;
    assert all[|before|..|upTo|] == upTo[|before|..];
  }

  lemma OffsetsDoNotDecrease(values: seq<Value>, kind: Kind, i: nat, j: nat)
    requires i <= j <= |values|
    ensures Encoded(values, ListType(kind)).offsets[i] <= Encoded(values, ListType(kind)).offsets[j]
  {
    OffsetsAreLengths(values, kind, i);
    OffsetsAreLengths(values, kind, j);
    FlattenGrows(values[..j], kind, i);
    assert values[..j][..i] == values[..i];
  }

  lemma {:induction false} CellAt(values: seq<Value>, kind: Kind, i: nat)
    requires i < |values|
    ensures Cells(values, kind)[i] == Cell(values[i], kind)
  {
    if i < |values| - 1 { CellAt(values[..|values| - 1], kind, i); }
  }

  /** What the encoder makes, the decoder accepts. */
  lemma EncodedIsWellFormed(values: seq<Value>, ty: ArrowType)
    ensures WellFormed(Encoded(values, ty)) && Length(Encoded(values, ty)) == |values|
    ensures var a := Encoded(values, ty); a.ListArray? ==> a.offsets[0] == 0 && a.offsets[|values|] == |a.child|
  {
    var a := Encoded(values, ty);
    match ty {
      case ScalarType(kind) =>
        forall i | 0 <= i < |a.cells| && a.cells[i].Some?
          ensures KindOf(a.cells[i].value) == kind
        {
          CellAt(values, kind, i);
        }
      case ListType(kind) =>
        FlattenKinds(values, kind);
        OffsetsAreLengths(values, kind, 0);
        forall i, j | 0 <= i <= j < |a.offsets|
          ensures a.offsets[i] <= a.offsets[j]
        {
          OffsetsDoNotDecrease(values, kind, i, j);
        }
    }
  }

  lemma RowIsDecoded(values: seq<Value>, ty: ArrowType, i: nat, v: Value)
    requires WellFormed(Encoded(values, ty)) && i < |values| == Length(Encoded(values, ty)) &&
        IsRow(Encoded(values, ty), i, v)
    ensures v == Decoded(values[i], ty)
  {
    match ty
    case ScalarType(kind) => CellAt(values, kind, i);
    case ListType(kind) =>
      OffsetsAreLengths(values, kind, i);
      OffsetsAreLengths(values, kind, i + 1);
      SliceIsItems(values, kind, i);
  }

  // ---------- The round trip ----------

  /** The column type is that of the first value that is not null: none if all are, an error if it is unsupported. */
  lemma {:induction false} ColumnTypeIsFirst(values: seq<Value>)
    ensures var ty := ColumnType(values);
      if ty.Err? then exists i :: 0 <= i < |values| && values[i].Unsupported? && forall j :: 0 <= j < i ==>
          IsNull(values[j])
      else if ty.value.None? then forall i :: 0 <= i < |values| ==> IsNull(values[i])
      else exists i :: 0 <= i < |values| && HasType(values[i], ty.value.value) && forall j :: 0 <= j < i ==>
          IsNull(values[j])
  {
    if values != [] {
      var rest := values[1..];
      if IsNull(values[0]) {
        ColumnTypeIsFirst(rest);
        assert forall i :: 0 < i < |values| ==> values[i] == rest[i - 1];
        match ColumnType(rest) {
          case Ok(None) =>
          case Ok(Some(ty)) =>
            var i :| 0 <= i < |rest| && HasType(rest[i], ty) && forall j :: 0 <= j < i ==> IsNull(rest[j]);
            assert HasType(values[i + 1], ty);
          case Err(_) =>
            var i :| 0 <= i < |rest| && rest[i].Unsupported? && forall j :: 0 <= j < i ==> IsNull(rest[j]);
            assert values[i + 1].Unsupported?;
        }
      } else if values[0].Unsupported? {
        assert values[0].Unsupported?;
      } else {
        assert HasType(values[0], ColumnType(values).value.value);
      }
    }
  }

  /** A column with a type comes back row for row; a value of that type, and an empty value
      of a scalar column, come back unchanged, and nothing else does. A column of nulls
      only comes back as `numRows` empty values, however long it was. */
  method EncodeAndDecode(values: seq<Value>, numRows: nat) returns (r: Result<seq<Value>, Error>)
    ensures r.Err? <==> ColumnType(values).Err?
    ensures ColumnType(values) == Ok(None) ==> r.Ok? && |r.value| == numRows && forall i :: 0 <= i < numRows ==>
        r.value[i] == Empty
    ensures ColumnType(values).Ok? && ColumnType(values).value.Some? ==>
      var ty := ColumnType(values).value.value;
      && r.Ok? && |r.value| == |values|
      && forall i :: 0 <= i < |values| ==>
          && r.value[i] == Decoded(values[i], ty)
          && (r.value[i] == values[i] <==> HasType(values[i], ty) || (values[i].Empty? && ty.ScalarType?))
  {
    var a := ProtoValuesToArrowArray(values, numRows);
    if a.Err? { return Err(a.error); }
    ghost var column := ColumnType(values).value;
    if column.Some? { EncodedIsWellFormed(values, column.value); }
    var decoded := ArrowValuesToProtoValues(a.value);
    if column.Some? {
      forall i | 0 <= i < |values|
        ensures decoded[i] == Decoded(values[i], column.value)
        ensures decoded[i] == values[i] <==>
          HasType(values[i], column.value) || (values[i].Empty? && column.value.ScalarType?)
      {
        RowIsDecoded(values, column.value, i, decoded[i]);
        UnchangedIff(values[i], column.value);
      }
    } else {
      assert forall i :: 0 <= i < |decoded| ==> IsRow(a.value, i, decoded[i]);
    }
    return Ok(decoded);
  }
}
