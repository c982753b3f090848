/** Columns of feature values as Arrow arrays: validity and offsets over a flat child, and back. */
module ArrowConversion {
  import opened Outcomes

  // ---------- Values ----------

  datatype Kind = BytesKind | StringKind | Int32Kind | Int64Kind | FloatKind | DoubleKind | BoolKind | TimestampKind

  datatype Prim =
    | Bytes(bytes: seq<int>) | Str(str: string) | Int32(i32: int) | Int64(i64: int)
    | Float(f32: real) | Double(f64: real) | Boolean(b: bool) | Timestamp(seconds: int)

  function KindOf(p: Prim): Kind {
    match p
    case Bytes(_) => BytesKind
    case Str(_) => StringKind
    case Int32(_) => Int32Kind
    case Int64(_) => Int64Kind
    case Float(_) => FloatKind
    case Double(_) => DoubleKind
    case Boolean(_) => BoolKind
    case Timestamp(_) => TimestampKind
  }

  /** What a protobuf getter returns when another case of the oneof is set. */
  function Zero(kind: Kind): Prim {
    match kind
    case BytesKind => Bytes([])
    case StringKind => Str("")
    case Int32Kind => Int32(0)
    case Int64Kind => Int64(0)
    case FloatKind => Float(0.0)
    case DoubleKind => Double(0.0)
    case BoolKind => Boolean(false)
    case TimestampKind => Timestamp(0)
  }

  /** A value pointer: nil, an empty message, one of the supported cases, or any other case. */
  datatype RawValue = NilPointer | Empty | Scalar(prim: Prim) | List(kind: Kind, items: seq<Prim>)
      | Unsupported(token: int)

  type Value = v: RawValue | v.List? ==> forall p :: p in v.items ==> KindOf(p) == v.kind witness Empty

  datatype ArrowType = ScalarType(kind: Kind) | ListType(kind: Kind)

  datatype Array =
    | NullArray(length: nat)
    | FlatArray(kind: Kind, cells: seq<Option<Prim>>)
    | ListArray(kind: Kind, offsets: seq<nat>, valid: seq<bool>, child: seq<Prim>)

  datatype Error = UnsupportedType(value: Value)

  predicate IsNull(v: Value) {
    v.NilPointer? || v.Empty?
  }

  /** `ProtoTypeToArrowType`; None for an empty message. */
  function ProtoTypeToArrowType(v: Value): Result<Option<ArrowType>, Error>
    requires !v.NilPointer?
  {
    match v
    case Empty => Ok(None)
    case Scalar(p) => Ok(Some(ScalarType(KindOf(p))))
    case List(kind, _) => Ok(Some(ListType(kind)))
    case Unsupported(_) => Err(UnsupportedType(v))
  }

  /** The `Get...Val` getters. */
  function GetScalar(v: Value, kind: Kind): (p: Prim)
    ensures KindOf(p) == kind
  {
    if v.Scalar? && KindOf(v.prim) == kind then v.prim else Zero(kind)
  }

  function GetList(v: Value, kind: Kind): (items: seq<Prim>)
    ensures forall p :: p in items ==> KindOf(p) == kind
  {
    if v.List? && v.kind == kind then v.items else []
  }

  // ---------- What the encoder produces ----------

  function Cell(v: Value, kind: Kind): Option<Prim> {
    if IsNull(v) then None else Some(GetScalar(v, kind))
  }

  function Cells(values: seq<Value>, kind: Kind): (r: seq<Option<Prim>>)
    ensures |r| == |values|
  {
    if values == [] then [] else Cells(values[..|values| - 1], kind) + [Cell(values[|values| - 1], kind)]
  }

  function Items(v: Value, kind: Kind): seq<Prim> {
    if IsNull(v) then [] else GetList(v, kind)
  }

  function Flatten(values: seq<Value>, kind: Kind): seq<Prim> {
    if values == [] then [] else Flatten(values[..|values| - 1], kind) + Items(values[|values| - 1], kind)
  }

  /** Where each list starts in the flat child. */
  function Starts(values: seq<Value>, kind: Kind): (r: seq<nat>)
    ensures |r| == |values|
  {
    if values == [] then [] else
      var init := values[..|values| - 1];
      Starts(init, kind) + [|Flatten(init, kind)|]
  }

  function Validity(values: seq<Value>): (r: seq<bool>)
    ensures |r| == |values|
  {
    if values == [] then [] else Validity(values[..|values| - 1]) + [!IsNull(values[|values| - 1])]
  }

  function Encoded(values: seq<Value>, ty: ArrowType): Array {
    match ty
    case ScalarType(kind) => FlatArray(kind, Cells(values, kind))
    case ListType(kind) =>
      ListArray(kind, Starts(values, kind) + [|Flatten(values, kind)|], Validity(values), Flatten(values, kind))
  }

  lemma {:induction false} ValidAt(values: seq<Value>, i: nat)
    requires i < |values|
    ensures Validity(values)[i] <==> !values[i].NilPointer? && !values[i].Empty?
  {
    if i < |values| - 1 { ValidAt(values[..|values| - 1], i); }
  }

  lemma {:induction false} CellIsValue(values: seq<Value>, kind: Kind, i: nat)
    requires i < |values|
    ensures Cells(values, kind)[i].None? <==> values[i].NilPointer? || values[i].Empty?
    ensures values[i].Scalar? && KindOf(values[i].prim) == kind ==> Cells(values, kind)[i] == Some(values[i].prim)
  {
    if i < |values| - 1 { CellIsValue(values[..|values| - 1], kind, i); }
  }

  /** A value of another kind is encoded as the zero of the column's kind. */
  lemma OtherKindIsZero(v: Value, kind: Kind)
    requires v.Unsupported? || v.List? || (v.Scalar? && KindOf(v.prim) != kind)
    ensures Cell(v, kind) == Some(
      match kind
      case BytesKind => Bytes([])
      case StringKind => Str("")
      case Int32Kind => Int32(0)
      case Int64Kind => Int64(0)
      case FloatKind => Float(0.0)
      case DoubleKind => Double(0.0)
      case BoolKind => Boolean(false)
      case TimestampKind => Timestamp(0))
  {
  }

  /** The array marks as null exactly the rows whose value is nil or an empty message. */
  ghost predicate MarksNulls(a: Array, values: seq<Value>) {
    match a
    case NullArray(_) => true
    case FlatArray(_, cells) =>
      |cells| == |values| && forall i :: 0 <= i < |cells| ==>
          (cells[i].None? <==> values[i].NilPointer? || values[i].Empty?)
    case ListArray(_, _, valid, _) =>
      |valid| == |values| && forall i :: 0 <= i < |valid| ==>
          (valid[i] <==> !values[i].NilPointer? && !values[i].Empty?)
  }

  lemma EncodedMarksNulls(values: seq<Value>, ty: ArrowType)
    ensures MarksNulls(Encoded(values, ty), values)
  {
    forall i | 0 <= i < |values|
      ensures Validity(values)[i] <==> !values[i].NilPointer? && !values[i].Empty?
    {
      ValidAt(values, i);
    }
    forall i | 0 <= i < |values|
      ensures Cells(values, ty.kind)[i].None? <==> values[i].NilPointer? || values[i].Empty?
    {
      CellIsValue(values, ty.kind, i);
    }
  }

  // ---------- The encoder ----------

  /** An Arrow builder: a list builder records where each list starts, and the end when the array is made. */
  class Builder {
    const ty: ArrowType
    var cells: seq<Option<Prim>>
    var starts: seq<nat>
    var valid: seq<bool>
    var child: seq<Prim>

    constructor (ty: ArrowType)
      ensures this.ty == ty && Holds([])
    {
      this.ty := ty;
      cells, starts, valid, child := [], [], [], [];
    }

    /** The builder has taken in exactly `values`. */
    ghost predicate Holds(values: seq<Value>)
      reads this
    {
      match ty
      case ScalarType(kind) => cells == Cells(values, kind)
      case ListType(kind) =>
        starts == Starts(values, kind) && valid == Validity(values) && child == Flatten(values, kind)
    }

    method AppendNull()
      modifies this
      ensures ty.ScalarType? ==> cells == old(cells) + [None]
      ensures ty.ListType? ==>
        starts == old(starts) + [|old(child)|] && valid == old(valid) + [false] && child == old(child)
    {
      match ty {
        case ScalarType(_) => cells := cells + [None];
        case ListType(_) => starts, valid := starts + [|child|], valid + [false];
      }
    }

    method Append(p: Prim)
      requires ty.ScalarType?
      modifies this`cells
      ensures cells == old(cells) + [Some(p)]
    {
      cells := cells + [Some(p)];
    }

    method AppendList()
      requires ty.ListType?
      modifies this`starts, this`valid
      ensures starts == old(starts) + [|child|] && valid == old(valid) + [true]
    {
      starts, valid := starts + [|child|], valid + [true];
    }

    method AppendItem(p: Prim)
      requires ty.ListType?
      modifies this`child
      ensures child == old(child) + [p]
    {
      child := child + [p];
    }

    method NewArray(ghost values: seq<Value>) returns (a: Array)
      requires Holds(values)
      ensures a == Encoded(values, ty)
    {
      match ty {
        case ScalarType(kind) => a := FlatArray(kind, cells);
        case ListType(kind) => a := ListArray(kind, starts + [|child|], valid, child);
      }
    }

    /** The body of the loop of `CopyProtoValuesToArrowArray`. */
    method CopyValue(v: Value, ghost before: seq<Value>)
      requires Holds(before)
      modifies this
      ensures Holds(before + [v])
    {
      assert (before + [v])[..|before|] == before;
      if IsNull(v) {
        AppendNull();
        assert ty.ListType? ==> child + [] == child;
        return;
      }
      match ty {
        case ScalarType(kind) => Append(GetScalar(v, kind));
        case ListType(kind) =>
          AppendList();
          var items := GetList(v, kind);
          ghost var start := child;
          var j := 0;
          while j < |items|
            invariant 0 <= j <= |items|
            invariant child == start + items[..j]
            modifies this`child
          {
            AppendItem(items[j]);
            j := j + 1;
            assert items[..j] == items[..j - 1] + [items[j - 1]];
          }
          assert items[..j] == items;
      }
    }
  }

  method CopyProtoValuesToArrowArray(builder: Builder, values: seq<Value>)
    requires builder.Holds([])
    modifies builder
    ensures builder.Holds(values)
  {
    var i := 0;
    while i < |values|
      invariant 0 <= i <= |values| && builder.Holds(values[..i])
    {
      builder.CopyValue(values[i], values[..i]);
      assert values[..i] + [values[i]] == values[..i + 1];
      i := i + 1;
    }
    assert values[..i] == values;
  }

  /** The type of the first value that has one; an unsupported value before it is an error. */
  function ColumnType(values: seq<Value>): Result<Option<ArrowType>, Error> {
    if values == [] then Ok(None)
    else if values[0].NilPointer? then ColumnType(values[1..])
    else
      match ProtoTypeToArrowType(values[0])
      case Err(e) => Err(e)
      case Ok(None) => ColumnType(values[1..])
      case Ok(Some(ty)) => Ok(Some(ty))
  }

  /** `ProtoValuesToArrowArray`. */
  method ProtoValuesToArrowArray(values: seq<Value>, numRows: nat) returns (r: Result<Array, Error>)
    ensures var ty := ColumnType(values);
      if ty.Err? then r == Err(ty.error)
      else r == Ok(if ty.value.None? then NullArray(numRows) else Encoded(values, ty.value.value))
    ensures r.Ok? ==> MarksNulls(r.value, values)
  {
    var fieldType: Option<ArrowType> := None;
    var i := 0;
    assert values[0..] == values;
    while i < |values| && fieldType.None?
      invariant 0 <= i <= |values|
      invariant ColumnType(values) == if fieldType.None? then ColumnType(values[i..]) else Ok(fieldType)
    {
      assert values[i..][1..] == values[i + 1..];
      if !values[i].NilPointer? {
        var t := ProtoTypeToArrowType(values[i]);
        if t.Err? { return Err(t.error); }
        fieldType := t.value;
      }
      i := i + 1;
    }
    if fieldType.None? { return Ok(NullArray(numRows)); }
    var builder := new Builder(fieldType.value);
    CopyProtoValuesToArrowArray(builder, values);
    var a := builder.NewArray(values);
    EncodedMarksNulls(values, fieldType.value);
    return Ok(a);
  }

  // ---------- The decoder ----------

  /** A valid array: offsets do not decrease and stay within the child. */
  ghost predicate WellFormed(a: Array) {
    && (a.FlatArray? ==> forall i :: 0 <= i < |a.cells| && a.cells[i].Some? ==> KindOf(a.cells[i].value) == a.kind)
    && (a.ListArray? ==>
        && |a.offsets| == |a.valid| + 1 && a.offsets[|a.valid|] <= |a.child|
        && (forall i, j :: 0 <= i <= j < |a.offsets| ==> a.offsets[i] <= a.offsets[j])
        && (forall p :: p in a.child ==> KindOf(p) == a.kind))
  }

  function Length(a: Array): nat {
    match a
    case NullArray(n) => n
    case FlatArray(_, cells) => |cells|
    case ListArray(_, _, valid, _) => |valid|
  }

  /** Where the decoder takes row `i` of a list array to start: the first one at 0. */
  function RowStart(offsets: seq<nat>, i: nat): nat
    requires i < |offsets|
  {
    if i == 0 then 0 else offsets[i]
  }

  /** The value the decoder gives row `i`: a null list is an empty list, a null scalar an empty value. */
  ghost predicate IsRow(a: Array, i: nat, v: Value)
    requires WellFormed(a) && i < Length(a)
  {
    match a
    case NullArray(_) => v == Empty
    case FlatArray(_, cells) => v == if cells[i].None? then Empty else Scalar(cells[i].value)
    case ListArray(kind, offsets, _, child) =>
      v.List? && v.kind == kind && v.items == child[RowStart(offsets, i)..offsets[i + 1]]
  }

  /** The list that the array means by row `i`. */
  ghost predicate MeansRow(a: Array, i: nat, v: Value)
    requires WellFormed(a) && i < Length(a)
  {
    if a.ListArray? then v.List? && v.kind == a.kind && v.items == a.child[a.offsets[i]..a.offsets[i + 1]]
        else IsRow(a, i, v)
  }

  ghost predicate AreRows(a: Array, values: seq<Value>)
    requires WellFormed(a)
  {
    |values| <= Length(a) && forall i :: 0 <= i < |values| ==> IsRow(a, i, values[i])
  }

  /** The decoder reads every row right if and only if the offsets start at 0, or there is no row. */
  lemma RowsAreMeantIff(a: Array, values: seq<Value>)
    requires WellFormed(a) && AreRows(a, values) && |values| == Length(a)
    ensures (a.ListArray? && values != [] ==> a.offsets[0] == 0) <==>
      forall i :: 0 <= i < |values| ==> MeansRow(a, i, values[i])
  {
    if a.ListArray? && values != [] {
      var first := values[0];
      assert IsRow(a, 0, first);
      assert |first.items| == a.offsets[1];
      if a.offsets[0] != 0 {
        assert |a.child[a.offsets[0]..a.offsets[1]]| == a.offsets[1] - a.offsets[0];
        assert !MeansRow(a, 0, first);
      }
    }
  }

  /** `ArrowValuesToProtoValues`: `pos` is the end of the previous list. */
  method ArrowValuesToProtoValues(a: Array) returns (values: seq<Value>)
    requires WellFormed(a)
    ensures |values| == Length(a) && AreRows(a, values)
  {
    values := [];
    if a.ListArray? {
      values := DecodeLists(a);
      return;
    }
    var idx := 0;
    while idx < Length(a)
      invariant 0 <= idx <= Length(a) && |values| == idx && AreRows(a, values)
    {
      var v: Value := if a.NullArray? || a.cells[idx].None? then Empty else Scalar(a.cells[idx].value);
      values := values + [v];
      idx := idx + 1;
    }
  }

  method DecodeLists(a: Array) returns (values: seq<Value>)
    requires a.ListArray? && WellFormed(a)
    ensures |values| == Length(a) && AreRows(a, values)
  {
    values := [];
    var ends := a.offsets[1..];
    var pos := 0;
    var idx := 0;
    while idx < |a.valid|
      invariant 0 <= idx <= |a.valid| && |values| == idx && AreRows(a, values)
      invariant pos == RowStart(a.offsets, idx)
    {
      assert a.offsets[idx] <= a.offsets[idx + 1] <= a.offsets[|a.valid|];
      var vals := [];
      var j := pos;
      while j < ends[idx]
        invariant pos <= j <= ends[idx] && vals == a.child[pos..j]
      {
        vals := vals + [a.child[j]];
        j := j + 1;
      }
      assert forall p :: p in vals ==> p in a.child;
      var v: Value := List(a.kind, vals);
      assert IsRow(a, idx, v);
      values := values + [v];
      pos := ends[idx];
      idx := idx + 1;
    }
  }
}
