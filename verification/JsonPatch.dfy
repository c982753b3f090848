/** JSON values and the `add` operation of JSON Patch (section 4.1 of RFC 6902), on
    pointers as in section 3 of RFC 6901. */
module JsonPatch {
  import opened Outcomes
  import opened SlashPaths
  import opened Decimals

  datatype Json = Null | Bool(b: bool) | Num(n: int) | Str(s: string) | Arr(items: seq<Json>)
      | Obj(fields: map<string, Json>)

  datatype Op = Add(path: string, value: Json)

  /** `~1` stands for a slash and `~0` for a tilde. */
  function Unescape(token: string): string {
    if token == [] then []
    else if |token| > 1 && token[0] == '~' && token[1] == '1' then "/" + Unescape(token[2..])
    else if |token| > 1 && token[0] == '~' && token[1] == '0' then "~" + Unescape(token[2..])
    else [token[0]] + Unescape(token[1..])
  }

  function UnescapeAll(tokens: seq<string>): (r: seq<string>)
    ensures |r| == |tokens|
  {
    if tokens == [] then [] else [Unescape(tokens[0])] + UnescapeAll(tokens[1..])
  }

  /** The reference tokens of a pointer: none for the whole document. */
  function Tokens(pointer: string): Option<seq<string>> {
    if pointer == [] then Some([])
    else if pointer[0] != '/' then None
    else Some(UnescapeAll(Split(pointer[1..])))
  }

  /** An array index: digits without a leading zero. */
  function Index(token: string): Option<nat> {
    if token != [] && AllDigits(token) && (token[0] != '0' || |token| == 1) then Some(Decimal(token)) else None
  }

  /** Adds `value` at the location, whose parent must exist: sets a member, inserts before an
      element, or appends at `-`. */
  function AddAt(doc: Json, tokens: seq<string>, value: Json): Option<Json>
    decreases |tokens|
  {
    if tokens == [] then Some(value)
    else
      var t := tokens[0];
      match doc
      case Obj(fields) =>
        if |tokens| == 1 then Some(Obj(fields[t := value]))
        else if t !in fields then None
        else
          (match AddAt(fields[t], tokens[1..], value)
           case None => None
           case Some(child) => Some(Obj(fields[t := child])))
      case Arr(items) =>
        if |tokens| == 1 && t == "-" then Some(Arr(items + [value]))
        else if Index(t).None? then None
        else
          var i := Index(t).value;
          if |tokens| == 1 then (if i <= |items| then Some(Arr(items[..i] + [value] + items[i..])) else None)
          else if i >= |items| then None
          else
            (match AddAt(items[i], tokens[1..], value)
             case None => None
             case Some(child) => Some(Arr(items[i := child])))
      case _ => None
  }

  function ApplyOp(doc: Json, op: Op): Option<Json> {
    match Tokens(op.path)
    case None => None
    case Some(tokens) => AddAt(doc, tokens, op.value)
  }

  /** A patch applies its operations in order, or not at all. */
  function Apply(doc: Json, patch: seq<Op>): Option<Json>
    decreases |patch|
  {
    if patch == [] then Some(doc)
    else
      match ApplyOp(doc, patch[0])
      case None => None
      case Some(next) => Apply(next, patch[1..])
  }

  /** The value at a location; `-` stands for the last element, where the value was appended. */
  function Read(doc: Json, tokens: seq<string>): Option<Json>
    decreases |tokens|
  {
    if tokens == [] then Some(doc)
    else
      match doc
      case Obj(fields) => if tokens[0] in fields then Read(fields[tokens[0]], tokens[1..]) else None
      case Arr(items) =>
        if tokens[0] == "-" then (if items != [] then Read(items[|items| - 1], tokens[1..]) else None)
        else if Index(tokens[0]).None? || Index(tokens[0]).value >= |items| then None
        else Read(items[Index(tokens[0]).value], tokens[1..])
      case _ => None
  }

  /** What is added is found at the location it was added at. */
  lemma {:induction false} AddedIsRead(doc: Json, tokens: seq<string>, value: Json)
    requires AddAt(doc, tokens, value).Some?
    ensures Read(AddAt(doc, tokens, value).value, tokens) == Some(value)
    decreases |tokens|
  {
    if tokens != [] {
      assert Index("-").None? by { assert !IsDigit("-"[0]); }
      match doc
      case Obj(fields) =>
        if |tokens| > 1 { AddedIsRead(fields[tokens[0]], tokens[1..], value); }
      case Arr(items) =>
        if |tokens| > 1 { AddedIsRead(items[Index(tokens[0]).value], tokens[1..], value); }
      case _ =>
    }
  }

  /** Adding at an index of an array keeps the elements before it and moves the others up by one; an
      index beyond the end is refused. */
  lemma AddingMovesUp(items: seq<Json>, t: string, value: Json)
    requires Index(t).Some?
    ensures var i, after := Index(t).value, AddAt(Arr(items), [t], value);
      && (after.Some? <==> i <= |items|)
      && (after.Some? ==>
            && after.value.Arr? && |after.value.items| == |items| + 1 && after.value.items[i] == value
            && (forall k :: 0 <= k < i ==> after.value.items[k] == items[k])
            && (forall k :: i <= k < |items| ==> after.value.items[k + 1] == items[k]))
  {
    assert t != "-" by { assert IsDigit(t[0]); }
    hide Index;
  }

  lemma {:induction false} UnescapePlain(token: string)
    requires '~' !in token
    ensures Unescape(token) == token
  {
    if token != [] { UnescapePlain(token[1..]); }
  }

  lemma {:induction false} UnescapeSlash(a: string, b: string)
    requires '~' !in a && '~' !in b
    ensures Unescape(a + "~1" + b) == a + "/" + b
  {
    var s := a + "~1" + b;
    if a == [] {
      UnescapePlain(b);
      assert s[2..] == b;
    } else {
      UnescapeSlash(a[1..], b);
      assert a[0] in a && s[0] == a[0] && s[1..] == a[1..] + "~1" + b;
      assert Unescape(s) == [a[0]] + Unescape(s[1..]);
      hide Unescape;
      assert [a[0]] + (a[1..] + "/" + b) == a + "/" + b;
    }
  }

  lemma SplitTwo(a: string, b: string)
    requires '/' !in a && '/' !in b
    ensures Split(a + "/" + b) == [a, b]
  {
    SplitPiece(a, b);
    SplitPiece(b, "");
    hide Split;
    assert [a] + [b] == [a, b];
  }

  lemma SplitThree(a: string, b: string, c: string)
    requires '/' !in a && '/' !in b && '/' !in c
    ensures Split(a + "/" + b + "/" + c) == [a, b, c]
  {
    SplitTwo(b, c);
    SplitPiece(a, b + "/" + c);
    hide Split;
    assert a + "/" + b + "/" + c == a + "/" + (b + "/" + c);
    assert [a] + [b, c] == [a, b, c];
  }

  lemma UnescapeEach(a: string, b: string, c: string)
    ensures UnescapeAll([a, b]) == [Unescape(a), Unescape(b)]
    ensures UnescapeAll([a, b, c]) == [Unescape(a), Unescape(b), Unescape(c)]
  {
    hide Unescape;
    assert UnescapeAll([b]) == [Unescape(b)] + UnescapeAll([]) && UnescapeAll([c]) == [Unescape(c)] + UnescapeAll([]);
    assert UnescapeAll([b, c]) == [Unescape(b)] + UnescapeAll([c]);
    assert [a, b, c][1..] == [b, c] && [b, c][1..] == [c] && [a, b][1..] == [b] && [b][1..] == [] && [c][1..] == [];
  }

  lemma TokensOfTwo(a: string, b: string)
    requires '/' !in a && '/' !in b
    ensures Tokens("/" + (a + "/" + b)) == Some([Unescape(a), Unescape(b)])
  {
    SplitTwo(a, b);
    UnescapeEach(a, b, b);
    hide Split, UnescapeAll, Unescape;
    assert ("/" + (a + "/" + b))[1..] == a + "/" + b;
  }

  lemma TokensOfThree(a: string, b: string, c: string)
    requires '/' !in a && '/' !in b && '/' !in c
    ensures Tokens("/" + (a + "/" + b + "/" + c)) == Some([Unescape(a), Unescape(b), Unescape(c)])
  {
    SplitThree(a, b, c);
    UnescapeEach(a, b, c);
    hide Split, UnescapeAll, Unescape;
    assert ("/" + (a + "/" + b + "/" + c))[1..] == a + "/" + b + "/" + c;
  }
}
