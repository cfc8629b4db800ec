/**
 * `encodeFormData`: a nested value flattened into the
 * `application/x-www-form-urlencoded` body the payment provider takes.
 * Nested objects become bracketed paths `a[b][c]`, array elements get
 * their index, `null` becomes `key=`, and the pairs are joined by `&`.
 */
module FormData {
  import opened Wrappers
  import opened Strings
  import Percent

  /**
   * A value as `encodeFormData` tells them apart. A scalar is held as the
   * text `String(value)` gives; an object as its `Object.entries`, in the
   * order they come.
   */
  datatype FormValue =
    | Undefined
    | Null
    | Scalar(text: string)
    | List(items: seq<FormValue>)
    | Fields(entries: seq<(string, FormValue)>)

  /** `Object.entries(null)` throws. */
  const NullEntriesError := "Cannot convert undefined or null to object"

  /** What `Object.entries` accepts here: an object, or an array read by its indices. */
  predicate ObjectLike(v: FormValue)
  {
    v.List? || v.Fields?
  }

  function EntryCount(data: FormValue): nat
    requires ObjectLike(data)
  {
    if data.List? then |data.items| else |data.entries|
  }

  /** `keyParts.map((part) => `[${part}]`).join('')`. */
  function Brackets(parts: seq<string>): string
  {
    if |parts| == 0 then "" else "[" + parts[0] + "]" + Brackets(parts[1..])
  }

  /** `fullKey`: the root key, then every further part in brackets. */
  function FullKey(path: seq<string>): string
    requires |path| > 0
  {
    path[0] + Brackets(path[1..])
  }

  /** `${fullKey}[${i}]`, with which an element of an array is named. */
  function Indexed(key: string, i: nat): string
  {
    key + "[" + NatToString(i) + "]"
  }

  /** The pieces of two parts of a `flatMap`, the first that throws deciding. */
  function Then(a: Result<seq<string>>, b: Result<seq<string>>): Result<seq<string>>
  {
    match a
    case Err(m) => Err(m)
    case Ok(x) =>
      match b
      case Err(m) => Err(m)
      case Ok(y) => Ok(x + y)
  }

  /** `encodeFormData(data, ctx)`. */
  function EncodeFormData(data: FormValue, ctx: seq<string>): Result<string>
    requires ObjectLike(data)
    decreases data, 2, 0
  {
    match Pieces(data, ctx, 0)
    case Err(m) => Err(m)
    case Ok(ps) => Ok(Join(ps, "&"))
  }

  /** The `flatMap` over `Object.entries(data)`, from entry `j` on. */
  function Pieces(data: FormValue, ctx: seq<string>, j: nat): Result<seq<string>>
    requires ObjectLike(data)
    decreases data, 1, EntryCount(data) - j
  {
    if j >= EntryCount(data) then Ok([])
    else
      match data
      case List(items) => Then(EntryPieces(NatToString(j), items[j], ctx), Pieces(data, ctx, j + 1))
      case Fields(es) => Then(EntryPieces(es[j].0, es[j].1, ctx), Pieces(data, ctx, j + 1))
  }

  /** What one entry `[key, value]` contributes to the `flatMap`. */
  function EntryPieces(key: string, value: FormValue, ctx: seq<string>): Result<seq<string>>
    decreases value, 3, 0
  {
    var fullKey := FullKey(ctx + [key]);
    match value
    case Undefined => Ok([fullKey + "="])
    case Null => Ok([fullKey + "="])
    case Scalar(t) => Ok([fullKey + "=" + Percent.Encode(t)])
    case List(_) => ItemPieces(value, key, ctx, 0)
    case Fields(_) =>
      match EncodeFormData(value, ctx + [key])
      case Err(m) => Err(m)
      case Ok(s) => Ok([s])
  }

  /** `value.map((v, i) => …)` over an array, from element `i` on. */
  function ItemPieces(list: FormValue, key: string, ctx: seq<string>, i: nat): Result<seq<string>>
    requires list.List?
    decreases list, 1, |list.items| - i
  {
    if i >= |list.items| then Ok([])
    else
      match list
      case List(items) =>
        var piece: Result<seq<string>> :=
          match items[i]
          case Null => Err(NullEntriesError)
          case Undefined => Ok([Indexed(FullKey(ctx + [key]), i) + "=" + Percent.Encode("undefined")])
          case Scalar(t) => Ok([Indexed(FullKey(ctx + [key]), i) + "=" + Percent.Encode(t)])
          case List(_) =>
            (match EncodeFormData(items[i], ctx + [Indexed(key, i)])
             case Err(m) => Err(m)
             case Ok(s) => Ok([s]))
          case Fields(_) =>
            (match EncodeFormData(items[i], ctx + [Indexed(key, i)])
             case Err(m) => Err(m)
             case Ok(s) => Ok([s]));
        Then(piece, ItemPieces(list, key, ctx, i + 1))
  }

  /**
   * The reference flattening: one `key=value` pair per leaf, in order,
   * every nested object contributing its own pairs rather than one joined
   * string.
   */
  function Pairs(data: FormValue, ctx: seq<string>, j: nat): Result<seq<string>>
    requires ObjectLike(data)
    decreases data, 1, EntryCount(data) - j
  {
    if j >= EntryCount(data) then Ok([])
    else
      match data
      case List(items) => Then(EntryPairs(NatToString(j), items[j], ctx), Pairs(data, ctx, j + 1))
      case Fields(es) => Then(EntryPairs(es[j].0, es[j].1, ctx), Pairs(data, ctx, j + 1))
  }

  function EntryPairs(key: string, value: FormValue, ctx: seq<string>): Result<seq<string>>
    decreases value, 3, 0
  {
    var fullKey := FullKey(ctx + [key]);
    match value
    case Undefined => Ok([fullKey + "="])
    case Null => Ok([fullKey + "="])
    case Scalar(t) => Ok([fullKey + "=" + Percent.Encode(t)])
    case List(_) => ItemPairs(value, key, ctx, 0)
    case Fields(_) => Pairs(value, ctx + [key], 0)
  }

  function ItemPairs(list: FormValue, key: string, ctx: seq<string>, i: nat): Result<seq<string>>
    requires list.List?
    decreases list, 1, |list.items| - i
  {
    if i >= |list.items| then Ok([])
    else
      match list
      case List(items) =>
        var pairs: Result<seq<string>> :=
          match items[i]
          case Null => Err(NullEntriesError)
          case Undefined => Ok([Indexed(FullKey(ctx + [key]), i) + "=" + Percent.Encode("undefined")])
          case Scalar(t) => Ok([Indexed(FullKey(ctx + [key]), i) + "=" + Percent.Encode(t)])
          case List(_) => Pairs(items[i], ctx + [Indexed(key, i)], 0)
          case Fields(_) => Pairs(items[i], ctx + [Indexed(key, i)], 0);
        Then(pairs, ItemPairs(list, key, ctx, i + 1))
  }

  /** No nested object or array is empty, so each gives at least one pair. */
  predicate Dense(v: FormValue)
  {
    match v
    case List(items) => |items| > 0 && forall i :: 0 <= i < |items| ==> Dense(items[i])
    case Fields(es) => |es| > 0 && forall j :: 0 <= j < |es| ==> Dense(es[j].1)
    case _ => true
  }

  /** Every value directly inside `data` is dense; `data` itself may be empty. */
  predicate DenseInside(data: FormValue)
  {
    match data
    case List(items) => forall i :: 0 <= i < |items| ==> Dense(items[i])
    case Fields(es) => forall j :: 0 <= j < |es| ==> Dense(es[j].1)
    case _ => true
  }

  // What the encoding promises.

  /** `fullKey` grows by one bracketed part per level. */
  lemma {:induction false} BracketsAppend(parts: seq<string>, k: string)
    ensures Brackets(parts + [k]) == Brackets(parts) + "[" + k + "]"
  {
    if |parts| > 0 {
      assert (parts + [k])[1..] == parts[1..] + [k];
      BracketsAppend(parts[1..], k);
    }
  }

  lemma FullKeyAppend(path: seq<string>, k: string)
    requires |path| > 0
    ensures FullKey(path + [k]) == FullKey(path) + "[" + k + "]"
  {
    assert (path + [k])[1..] == path[1..] + [k];
    BracketsAppend(path[1..], k);
  }

  /** Three levels of objects give the path `a[b][c]`. */
  lemma BracketedPath(a: string, b: string, c: string)
    ensures FullKey([a, b, c]) == a + "[" + b + "][" + c + "]"
  {
    assert [a, b, c][1..] == [b, c];
    assert [b, c][1..] == [c];
    assert Brackets([c]) == "[" + c + "]" + Brackets([]);
    assert Brackets([b, c]) == "[" + b + "]" + Brackets([c]);
  }

  /** `null` and `undefined` encode as `key=`. */
  lemma NullIsEmptyValue(key: string, v: FormValue, ctx: seq<string>)
    requires v.Null? || v.Undefined?
    ensures EncodeFormData(Fields([(key, v)]), ctx) == Ok(FullKey(ctx + [key]) + "=")
  {
    SingleEntry(key, v, ctx);
  }

  /** An object of one entry joins the pieces of that entry. */
  lemma SingleEntry(key: string, v: FormValue, ctx: seq<string>)
    ensures EncodeFormData(Fields([(key, v)]), ctx)
      == match EntryPieces(key, v, ctx) case Err(m) => Err(m) case Ok(ps) => Ok(Join(ps, "&"))
  {
    var data := Fields([(key, v)]);
    assert Pieces(data, ctx, 1) == Ok([]);
    assert data.entries[0] == (key, v);
    match EntryPieces(key, v, ctx)
    case Err(m) =>
    case Ok(ps) =>
      assert ps + [] == ps;
  }

  /** A scalar encodes as its percent-encoded text; the key is written as it is. */
  lemma ScalarEncoded(key: string, t: string)
    ensures EncodeFormData(Fields([(key, Scalar(t))]), []) == Ok(key + "=" + Percent.Encode(t))
  {
    assert [] + [key] == [key];
    assert FullKey([key]) == key;
    SingleEntry(key, Scalar(t), []);
  }

  /** An object under `key` is encoded with `key` added to the context. */
  lemma NestedObjectContext(key: string, v: FormValue, ctx: seq<string>)
    requires v.Fields?
    ensures EncodeFormData(Fields([(key, v)]), ctx) == EncodeFormData(v, ctx + [key])
  {
    SingleEntry(key, v, ctx);
  }

  /** An object of one scalar encodes as its full key and the encoded text. */
  lemma ScalarField(c: string, t: string, ctx: seq<string>)
    ensures EncodeFormData(Fields([(c, Scalar(t))]), ctx) == Ok(FullKey(ctx + [c]) + "=" + Percent.Encode(t))
  {
    SingleEntry(c, Scalar(t), ctx);
  }

  /** `{a: {b: {c: t}}}` gives `a[b][c]=` and the encoded `t`. */
  lemma ThreeLevels(a: string, b: string, c: string, t: string)
    ensures EncodeFormData(Fields([(a, Fields([(b, Fields([(c, Scalar(t))]))]))]), [])
      == Ok(a + "[" + b + "][" + c + "]=" + Percent.Encode(t))
  {
    var inner := Fields([(c, Scalar(t))]);
    NestedObjectContext(a, Fields([(b, inner)]), []);
    assert [] + [a] == [a];
    NestedObjectContext(b, inner, [a]);
    assert [a] + [b] == [a, b];
    ScalarField(c, t, [a, b]);
    assert [a, b] + [c] == [a, b, c];
    BracketedPath(a, b, c);
    CloseEquals(a + "[" + b + "][" + c);
  }

  lemma IndexBracket(p: string, key: string)
    ensures p + (key + "[0]") + "][" == p + key + "[0]]["
  {
    assert "[0]" + "][" == "[0]][";
  }

  lemma CloseEquals(x: string)
    ensures (x + "]") + "=" == x + "]="
  {
    assert "]" + "=" == "]=";
  }

  /** The pair `key[i]=v` for the element `i` of an array under `key`, whose text is `t`. */
  function ItemLine(key: string, ctx: seq<string>, i: nat, t: string): string
  {
    Indexed(FullKey(ctx + [key]), i) + "=" + Percent.Encode(t)
  }

  /** A scalar element contributes its one pair ahead of the elements after it. */
  lemma ScalarItemStep(list: FormValue, key: string, ctx: seq<string>, i: nat)
    requires list.List? && i < |list.items| && list.items[i].Scalar?
    ensures ItemPieces(list, key, ctx, i) == Then(Ok([ItemLine(key, ctx, i, list.items[i].text)]), ItemPieces(list, key, ctx, i + 1))
  {
  }

  /** An array of scalars gives `key[i]=v` for every element, in order. */
  lemma {:induction false} ScalarItems(list: FormValue, key: string, ctx: seq<string>, i: nat)
    requires list.List? && i <= |list.items|
    requires forall k :: i <= k < |list.items| ==> list.items[k].Scalar?
    ensures ItemPieces(list, key, ctx, i)
      == Ok(seq(|list.items| - i, k requires 0 <= k < |list.items| - i => ItemLine(key, ctx, i + k, list.items[i + k].text)))
    decreases |list.items| - i
  {
    if i < |list.items| {
      ScalarItems(list, key, ctx, i + 1);
      ScalarItemStep(list, key, ctx, i);
      var whole := seq(|list.items| - i, k requires 0 <= k < |list.items| - i => ItemLine(key, ctx, i + k, list.items[i + k].text));
      var rest := seq(|list.items| - (i + 1), k requires 0 <= k < |list.items| - (i + 1) =>
        ItemLine(key, ctx, i + 1 + k, list.items[i + 1 + k].text));
      forall k | 0 <= k < |rest|
        ensures whole[k + 1] == rest[k]
      {
        assert i + (k + 1) == i + 1 + k;
      }
      assert whole == [whole[0]] + rest;
    }
  }

  /** An object inside an array is encoded with the context key `key[i]`. */
  lemma ObjectItemContext(list: FormValue, key: string, ctx: seq<string>, i: nat)
    requires list.List? && i < |list.items| && list.items[i].Fields?
    requires EncodeFormData(list.items[i], ctx + [Indexed(key, i)]).Ok?
    ensures ItemPieces(list, key, ctx, i)
      == Then(Ok([EncodeFormData(list.items[i], ctx + [Indexed(key, i)]).value]), ItemPieces(list, key, ctx, i + 1))
  {
  }

  /** A `null` inside an array throws, since `typeof null` is `'object'`. */
  lemma NullItemThrows(list: FormValue, key: string, ctx: seq<string>, i: nat)
    requires list.List? && i < |list.items| && list.items[i].Null?
    ensures ItemPieces(list, key, ctx, i) == Err(NullEntriesError)
  {
  }

  /** An empty object encodes as the empty text, wherever it is. */
  lemma EmptyObjectIsEmpty(ctx: seq<string>)
    ensures EncodeFormData(Fields([]), ctx) == Ok("")
  {
  }

  /** `.join('&')` of two parts: the separator only between two non-empty parts. */
  lemma {:induction false} JoinConcat(a: seq<string>, b: seq<string>, sep: string)
    ensures Join(a + b, sep) == if |a| == 0 then Join(b, sep) else if |b| == 0 then Join(a, sep)
      else Join(a, sep) + sep + Join(b, sep)
  {
    if |a| == 0 {
      assert a + b == b;
    } else if |b| == 0 {
      assert a + b == a;
    } else if |a| == 1 {
      assert (a + b)[1..] == b;
    } else {
      assert (a + b)[1..] == a[1..] + b;
      JoinConcat(a[1..], b, sep);
    }
  }

  /** How the pieces and the pairs of one part correspond: both throw alike, or join alike and are empty alike. */
  predicate Agree(pieces: Result<seq<string>>, pairs: Result<seq<string>>)
  {
    (pieces.Err? <==> pairs.Err?)
    && (pieces.Err? ==> pieces.msg == pairs.msg)
    && (pieces.Ok? ==> Join(pieces.value, "&") == Join(pairs.value, "&") && (|pieces.value| == 0 <==> |pairs.value| == 0))
  }

  lemma ThenAgree(a: Result<seq<string>>, a': Result<seq<string>>, b: Result<seq<string>>, b': Result<seq<string>>)
    requires Agree(a, a') && Agree(b, b')
    ensures Agree(Then(a, b), Then(a', b'))
  {
    if a.Ok? && b.Ok? {
      JoinConcat(a.value, b.value, "&");
      JoinConcat(a'.value, b'.value, "&");
    }
  }

  /** A dense object or array that does not throw has at least one pair. */
  lemma {:induction false} DensePairs(data: FormValue, ctx: seq<string>)
    requires ObjectLike(data) && Dense(data) && Pairs(data, ctx, 0).Ok?
    ensures |Pairs(data, ctx, 0).value| > 0
    decreases data, 1
  {
    match data
    case List(items) =>
      EntryPairsNonEmpty(NatToString(0), items[0], ctx);
    case Fields(es) =>
      EntryPairsNonEmpty(es[0].0, es[0].1, ctx);
  }

  lemma {:induction false} EntryPairsNonEmpty(key: string, value: FormValue, ctx: seq<string>)
    requires Dense(value) && EntryPairs(key, value, ctx).Ok?
    requires value.List? ==> |value.items| > 0
    ensures |EntryPairs(key, value, ctx).value| > 0
    decreases value, 2
  {
    match value
    case List(items) =>
      var p := match items[0]
        case List(_) => Pairs(items[0], ctx + [Indexed(key, 0)], 0)
        case Fields(_) => Pairs(items[0], ctx + [Indexed(key, 0)], 0)
        case _ => Ok([]);
      if items[0].List? || items[0].Fields? {
        DensePairs(items[0], ctx + [Indexed(key, 0)]);
      }
    case Fields(_) =>
      DensePairs(value, ctx + [key]);
    case _ =>
  }

  /**
   * Apart from empty nested objects and arrays, the encoding is the pairs
   * of every leaf joined by `&`: the nested joins flatten into one.
   */
  lemma EncodeIsJoinedPairs(data: FormValue, ctx: seq<string>)
    requires ObjectLike(data) && DenseInside(data)
    ensures EncodeFormData(data, ctx).Err? <==> Pairs(data, ctx, 0).Err?
    ensures EncodeFormData(data, ctx).Ok? ==> EncodeFormData(data, ctx).value == Join(Pairs(data, ctx, 0).value, "&")
  {
    PiecesAgree(data, ctx, 0);
  }

  lemma {:induction false} PiecesAgree(data: FormValue, ctx: seq<string>, j: nat)
    requires ObjectLike(data) && DenseInside(data)
    ensures Agree(Pieces(data, ctx, j), Pairs(data, ctx, j))
    decreases data, 1, EntryCount(data) - j
  {
    if j < EntryCount(data) {
      PiecesAgree(data, ctx, j + 1);
      match data
      case List(items) =>
        EntryAgree(NatToString(j), items[j], ctx);
        ThenAgree(EntryPieces(NatToString(j), items[j], ctx), EntryPairs(NatToString(j), items[j], ctx),
                  Pieces(data, ctx, j + 1), Pairs(data, ctx, j + 1));
      case Fields(es) =>
        EntryAgree(es[j].0, es[j].1, ctx);
        ThenAgree(EntryPieces(es[j].0, es[j].1, ctx), EntryPairs(es[j].0, es[j].1, ctx),
                  Pieces(data, ctx, j + 1), Pairs(data, ctx, j + 1));
    }
  }

  /** A dense nested object: one joined piece against its non-empty pairs. */
  lemma NestedAgree(value: FormValue, ctx: seq<string>)
    requires ObjectLike(value) && Dense(value)
    ensures Agree(match EncodeFormData(value, ctx) case Err(m) => Err(m) case Ok(s) => Ok([s]), Pairs(value, ctx, 0))
    decreases value, 2
  {
    assert DenseInside(value);
    PiecesAgree(value, ctx, 0);
    if Pairs(value, ctx, 0).Ok? {
      DensePairs(value, ctx);
    }
  }

  lemma {:induction false} EntryAgree(key: string, value: FormValue, ctx: seq<string>)
    requires Dense(value)
    ensures Agree(EntryPieces(key, value, ctx), EntryPairs(key, value, ctx))
    decreases value, 3
  {
    match value
    case List(_) =>
      ItemAgree(value, key, ctx, 0);
    case Fields(_) =>
      NestedAgree(value, ctx + [key]);
    case _ =>
  }

  lemma {:induction false} ItemAgree(list: FormValue, key: string, ctx: seq<string>, i: nat)
    requires list.List? && Dense(list)
    ensures Agree(ItemPieces(list, key, ctx, i), ItemPairs(list, key, ctx, i))
    decreases list, 1, |list.items| - i
  {
    if i < |list.items| {
      ItemAgree(list, key, ctx, i + 1);
      var items := list.items;
      var ctx' := ctx + [Indexed(key, i)];
      if items[i].List? || items[i].Fields? {
        NestedAgree(items[i], ctx');
      }
      var piece: Result<seq<string>> :=
        match items[i]
        case Null => Err(NullEntriesError)
        case Undefined => Ok([Indexed(FullKey(ctx + [key]), i) + "=" + Percent.Encode("undefined")])
        case Scalar(t) => Ok([Indexed(FullKey(ctx + [key]), i) + "=" + Percent.Encode(t)])
        case _ => (match EncodeFormData(items[i], ctx') case Err(m) => Err(m) case Ok(s) => Ok([s]));
      var pairs: Result<seq<string>> :=
        match items[i]
        case Null => Err(NullEntriesError)
        case Undefined => Ok([Indexed(FullKey(ctx + [key]), i) + "=" + Percent.Encode("undefined")])
        case Scalar(t) => Ok([Indexed(FullKey(ctx + [key]), i) + "=" + Percent.Encode(t)])
        case _ => Pairs(items[i], ctx', 0);
      ThenAgree(piece, pairs, ItemPieces(list, key, ctx, i + 1), ItemPairs(list, key, ctx, i + 1));
    }
  }

  /** An array holding one object under `key` is that object encoded with the context key `key[0]`. */
  lemma SingleObjectItem(key: string, leaf: FormValue, ctx: seq<string>)
    requires leaf.Fields? && EncodeFormData(leaf, ctx + [Indexed(key, 0)]).Ok?
    ensures EncodeFormData(Fields([(key, List([leaf]))]), ctx) == EncodeFormData(leaf, ctx + [Indexed(key, 0)])
  {
    var list := List([leaf]);
    SingleEntry(key, list, ctx);
    assert ItemPieces(list, key, ctx, 1) == Ok([]);
    assert list.items[0] == leaf;
    ObjectItemContext(list, key, ctx, 0);
    var s := EncodeFormData(leaf, ctx + [Indexed(key, 0)]).value;
    assert [s] + [] == [s];
  }

  /**
   * An object in an array that is itself nested takes the index inside the
   * bracket of its own key: `{x: {items: [{a: t}]}}` gives `x[items[0]][a]=`
   * and the encoded `t`.
   */
  lemma NestedArrayObjectPath(x: string, key: string, a: string, t: string)
    ensures EncodeFormData(Fields([(x, Fields([(key, List([Fields([(a, Scalar(t))])]))]))]), [])
      == Ok(x + "[" + key + "[0]][" + a + "]=" + Percent.Encode(t))
  {
    var leaf := Fields([(a, Scalar(t))]);
    NestedObjectContext(x, Fields([(key, List([leaf]))]), []);
    assert [] + [x] == [x];
    var k0 := key + "[0]";
    assert Indexed(key, 0) == k0;
    assert [x] + [Indexed(key, 0)] == [x, k0];
    ScalarField(a, t, [x, k0]);
    SingleObjectItem(key, leaf, [x]);
    assert [x, k0] + [a] == [x, k0, a];
    BracketedPath(x, k0, a);
    CloseEquals(x + "[" + k0 + "][" + a);
    IndexBracket(x + "[", key);
  }
}
