/**
 * `parseCookies`: a `Cookie` header read into a dictionary. The text is
 * trimmed, split at `;` with one optional space after it, and each piece
 * split at `=`, every field percent-decoded; a later key overrides an
 * earlier one.
 */
module Cookies {
  import opened Wrappers
  import opened Strings
  import Percent

  /** The characters `String.prototype.trim` removes: white space and line terminators. */
  predicate IsTrimmed(ch: char)
  {
    ch == '\t' || ch == '\n' || ch == '\U{000B}' || ch == '\U{000C}' || ch == '\r' || ch == ' '
    || ch == '\U{00A0}' || ch == '\U{1680}' || ('\U{2000}' <= ch <= '\U{200A}')
    || ch == '\U{2028}' || ch == '\U{2029}' || ch == '\U{202F}' || ch == '\U{205F}'
    || ch == '\U{3000}' || ch == '\U{FEFF}'
  }

  function TrimStart(s: string): (t: string)
    ensures |t| <= |s| && t == s[|s| - |t|..]
    ensures |t| > 0 ==> !IsTrimmed(t[0])
  {
    if |s| > 0 && IsTrimmed(s[0]) then TrimStart(s[1..]) else s
  }

  function TrimEnd(s: string): (t: string)
    ensures |t| <= |s| && t == s[..|t|]
    ensures |t| > 0 ==> !IsTrimmed(t[|t| - 1])
  {
    if |s| > 0 && IsTrimmed(s[|s| - 1]) then TrimEnd(s[..|s| - 1]) else s
  }

  /** `str.trim()`. */
  function Trim(s: string): string
  {
    TrimEnd(TrimStart(s))
  }

  /** A blank text trims to nothing. */
  lemma {:induction false} BlankTrimsToEmpty(s: string)
    requires forall k :: 0 <= k < |s| ==> IsTrimmed(s[k])
    ensures Trim(s) == ""
    decreases |s|
  {
    if |s| > 0 {
      BlankTrimsToEmpty(s[1..]);
    }
  }

  /** What follows a `;` in a piece: the one space the pattern `/; ?/` takes with it is dropped. */
  function DropSpace(s: string): string
  {
    if |s| > 0 && s[0] == ' ' then s[1..] else s
  }

  /** `trimmed.split(/; ?/)`. */
  function Pieces(s: string): (ps: seq<string>)
    ensures |ps| == |Split(s, ';')| > 0
  {
    var fields := Split(s, ';');
    seq(|fields|, i requires 0 <= i < |fields| => if i == 0 then fields[0] else DropSpace(fields[i]))
  }

  /** `fields.map(decodeURIComponent)`: the first field that does not decode throws. */
  function DecodeAll(fields: seq<string>): (r: Result<seq<string>>)
    ensures r.Ok? ==> |r.value| == |fields|
    ensures r.Ok? ==> forall i :: 0 <= i < |fields| ==> Percent.Decode(fields[i]) == Ok(r.value[i])
  {
    if |fields| == 0 then Ok([])
    else
      match Percent.Decode(fields[0])
      case Err(m) => Err(m)
      case Ok(first) =>
        match DecodeAll(fields[1..])
        case Err(m) => Err(m)
        case Ok(rest) => Ok([first] + rest)
  }

  /** `const [key, value = ''] = cookie.split('=').map(decodeURIComponent)`. */
  function Entry(piece: string): Result<(string, string)>
  {
    match DecodeAll(Split(piece, '='))
    case Err(m) => Err(m)
    case Ok(fields) => Ok((fields[0], if |fields| > 1 then fields[1] else ""))
  }

  /** The entries of the pieces in order; the first piece that does not decode throws. */
  function Entries(pieces: seq<string>): (r: Result<seq<(string, string)>>)
    ensures r.Ok? ==> |r.value| == |pieces|
  {
    if |pieces| == 0 then Ok([])
    else
      match Entries(pieces[..|pieces| - 1])
      case Err(m) => Err(m)
      case Ok(es) =>
        match Entry(pieces[|pieces| - 1])
        case Err(m) => Err(m)
        case Ok(e) => Ok(es + [e])
  }

  /**
   * The one key an object literal does not store on assignment: `__proto__`
   * is an accessor inherited from `Object.prototype`, and setting it to a
   * string changes nothing.
   */
  const ProtoKey := "__proto__"

  /** `cookies[key] = value` on an object literal. */
  function Put(cookies: map<string, string>, key: string, value: string): map<string, string>
  {
    if key == ProtoKey then cookies else cookies[key := value]
  }

  /** The `forEach` assigning `cookies[key] = value` entry by entry. */
  function Assign(es: seq<(string, string)>): map<string, string>
  {
    if |es| == 0 then map[] else Put(Assign(es[..|es| - 1]), es[|es| - 1].0, es[|es| - 1].1)
  }

  /** `parseCookies(str)`. */
  function ParseCookiesOf(s: string): Result<map<string, string>>
  {
    var trimmed := Trim(s);
    if |trimmed| == 0 then Ok(map[])
    else
      match Entries(Pieces(trimmed))
      case Err(m) => Err(m)
      case Ok(es) => Ok(Assign(es))
  }

  // What parsing promises.

  /** Blank or white-space text gives `{}`. */
  lemma BlankIsEmpty(s: string)
    requires forall k :: 0 <= k < |s| ==> IsTrimmed(s[k])
    ensures ParseCookiesOf(s) == Ok(map[])
  {
    BlankTrimsToEmpty(s);
  }

  /** A piece without `=` gives its decoded self as key and `''` as value. */
  lemma NoEqualsEmptyValue(piece: string)
    requires '=' !in piece && Percent.Decode(piece).Ok?
    ensures Entry(piece) == Ok((Percent.Decode(piece).value, ""))
  {
    IndexOfAbsent(piece, '=');
    assert Split(piece, '=') == [piece];
    var d := Percent.Decode(piece).value;
    assert DecodeAll([piece]) == Ok([d]) by {
      assert [piece][1..] == [];
      assert DecodeAll([]) == Ok([]);
      assert [d] + [] == [d];
    }
  }

  /** Of `k=v=w`, only `v` becomes the value, although `w` must decode too. */
  lemma SecondEqualsCuts(k: string, v: string, w: string)
    requires '=' !in k && '=' !in v && '=' !in w
    requires Percent.Decode(k).Ok? && Percent.Decode(v).Ok? && Percent.Decode(w).Ok?
    ensures Entry(k + "=" + v + "=" + w) == Ok((Percent.Decode(k).value, Percent.Decode(v).value))
  {
    var fs := [k, v, w];
    assert Join(fs[1..], "=") == v + "=" + w by {
      assert fs[1..][1..] == [w];
    }
    assert Join(fs, "=") == k + "=" + v + "=" + w;
    SplitJoin(fs, '=');
    DecodeAllOk(fs);
  }

  /** Fields that each decode decode together. */
  lemma {:induction false} DecodeAllOk(fields: seq<string>)
    requires forall i :: 0 <= i < |fields| ==> Percent.Decode(fields[i]).Ok?
    ensures DecodeAll(fields).Ok?
  {
    if |fields| > 0 {
      DecodeAllOk(fields[1..]);
    }
  }

  /** Every key comes from some entry, and every entry's key is there except `__proto__`. */
  lemma {:induction false} AssignKeys(es: seq<(string, string)>)
    ensures forall k :: k in Assign(es) <==> k != ProtoKey && exists i :: 0 <= i < |es| && es[i].0 == k
  {
    if |es| > 0 {
      var init := es[..|es| - 1];
      AssignKeys(init);
      assert forall i :: 0 <= i < |init| ==> init[i] == es[i];
    }
  }

  /**
   * A later duplicate key overrides: a key holds the value of the last entry
   * that names it, and `__proto__` is held by none.
   */
  lemma {:induction false} LaterDuplicateWins(es: seq<(string, string)>, i: nat)
    requires i < |es|
    requires forall j :: i < j < |es| ==> es[j].0 != es[i].0
    ensures es[i].0 in Assign(es) <==> es[i].0 != ProtoKey
    ensures es[i].0 != ProtoKey ==> Assign(es)[es[i].0] == es[i].1
  {
    if i < |es| - 1 {
      var init := es[..|es| - 1];
      assert forall j :: 0 <= j < |init| ==> init[j] == es[j];
      LaterDuplicateWins(init, i);
    } else if es[i].0 == ProtoKey {
      AssignKeys(es[..i]);
    }
  }

  /** A header `__proto__=v` gives `{}`. */
  lemma ProtoCookieDropped(v: string)
    requires '%' !in v && '=' !in v && ';' !in v
    requires |v| == 0 || !IsTrimmed(v[|v| - 1])
    ensures ParseCookiesOf(ProtoKey + "=" + v) == Ok(map[])
  {
    var s := ProtoKey + "=" + v;
    OnePiece(s);
    ProtoEntry(v);
    OneEntry(s);
  }

  /** `__proto__=v` is already trimmed and has no `;`. */
  lemma OnePiece(s: string)
    requires |s| > 0 && !IsTrimmed(s[0]) && !IsTrimmed(s[|s| - 1]) && ';' !in s
    ensures Trim(s) == s && Pieces(s) == [s]
  {
    IndexOfAbsent(s, ';');
  }

  lemma ProtoEntry(v: string)
    requires '%' !in v && '=' !in v
    ensures Entry(ProtoKey + "=" + v) == Ok((ProtoKey, v))
  {
    var fs := [ProtoKey, v];
    assert Join(fs, "=") == ProtoKey + "=" + v by {
      assert fs[1..] == [v];
    }
    SplitJoin(fs, '=');
    Percent.DecodePlain(ProtoKey);
    Percent.DecodePlain(v);
    assert DecodeAll(fs) == Ok(fs) by {
      assert fs[1..] == [v] && [v][1..] == [];
      assert DecodeAll([]) == Ok([]);
      assert [v] + [] == [v];
      assert DecodeAll([v]) == Ok([v]);
    }
  }

  /** A single piece: its entry alone, assigned into `{}`. */
  lemma OneEntry(s: string)
    requires Entry(s).Ok?
    ensures Entries([s]) == Ok([Entry(s).value])
    ensures Assign([Entry(s).value]) == Put(map[], Entry(s).value.0, Entry(s).value.1)
  {
    var e := Entry(s).value;
    assert [s][..0] == [] && [e][..0] == [];
    assert Entries([]) == Ok([]) && [] + [e] == [e];
  }

  /** The entries are those of the pieces, one each, in order. */
  lemma {:induction false} EntriesOfPieces(pieces: seq<string>)
    requires Entries(pieces).Ok?
    ensures forall i :: 0 <= i < |pieces| ==> Entry(pieces[i]) == Ok(Entries(pieces).value[i])
  {
    if |pieces| > 0 {
      var init := pieces[..|pieces| - 1];
      EntriesOfPieces(init);
      assert forall i :: 0 <= i < |init| ==> init[i] == pieces[i];
    }
  }

  // The running program: the `forEach` assigns into the `cookies` object.

  method ParseCookies(s: string) returns (r: Result<map<string, string>>)
    ensures r == ParseCookiesOf(s)
  {
    var trimmed := Trim(s);
    if |trimmed| == 0 {
      return Ok(map[]);
    }
    r := AssignAll(Pieces(trimmed));
  }

  /** The `forEach` over the pieces, assigning into `cookies`. */
  method AssignAll(pieces: seq<string>) returns (r: Result<map<string, string>>)
    ensures Entries(pieces).Err? ==> r == Err(Entries(pieces).msg)
    ensures Entries(pieces).Ok? ==> r == Ok(Assign(Entries(pieces).value))
  {
    var cookies: map<string, string> := map[];
    ghost var es: seq<(string, string)> := [];
    for i := 0 to |pieces|
      invariant Entries(pieces[..i]) == Ok(es) && cookies == Assign(es)
    {
      assert pieces[..i + 1][..i] == pieces[..i];
      var entry := Entry(pieces[i]);
      if entry.Err? {
        EntriesPrefixError(pieces, i + 1);
        return Err(entry.msg);
      }
      cookies := Put(cookies, entry.value.0, entry.value.1);
      es := es + [entry.value];
      assert es[..|es| - 1] == es[..i];
    }
    assert pieces[..|pieces|] == pieces;
    return Ok(cookies);
  }

  lemma {:induction false} EntriesPrefixError(pieces: seq<string>, n: nat)
    requires n <= |pieces| && Entries(pieces[..n]).Err?
    ensures Entries(pieces) == Entries(pieces[..n])
    decreases |pieces| - n
  {
    if n < |pieces| {
      assert pieces[..n + 1][..n] == pieces[..n];
      EntriesPrefixError(pieces, n + 1);
    } else {
      assert pieces[..n] == pieces;
    }
  }
}
