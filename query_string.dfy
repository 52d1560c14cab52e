/**
 * The part of `URLSearchParams` the pages use to build the links they navigate to: `set`, `get`,
 * `toString`, and reading a query string back. Percent-encoding is a parameter (`encode` and
 * `decode`) rather than a model of the form-encoding algorithm.
 */
module QueryString {
  import opened Wrappers
  import opened JsStrings

  /** One `key=value` entry, in insertion order. */
  datatype Param = Param(key: string, value: string)

  /** `params.get(key)`: the value of the first entry under `key`, `null` when there is none. */
  function Get(ps: seq<Param>, key: string): Option<string> {
    if ps == [] then None else if ps[0].key == key then Some(ps[0].value) else Get(ps[1..], key)
  }

  /** The entries whose key is not `key`. */
  function Without(ps: seq<Param>, key: string): seq<Param> {
    if ps == [] then []
    else if ps[0].key == key then Without(ps[1..], key)
    else [ps[0]] + Without(ps[1..], key)
  }

  /**
   * `params.set(key, value)`: the first entry under `key` takes the new value and any later ones
   * are removed; without such an entry, a new one is appended.
   */
  function Set(ps: seq<Param>, key: string, value: string): seq<Param> {
    if ps == [] then [Param(key, value)]
    else if ps[0].key == key then [Param(key, value)] + Without(ps[1..], key)
    else [ps[0]] + Set(ps[1..], key, value)
  }

  lemma {:induction false} GetWithout(ps: seq<Param>, key: string, other: string)
    ensures Get(Without(ps, key), other) == if other == key then None else Get(ps, other)
  {
    if ps != [] {
      GetWithout(ps[1..], key, other);
    }
  }

  /** After `set`, `get` of that key gives the new value and every other key is as before. */
  lemma {:induction false} GetSet(ps: seq<Param>, key: string, value: string, other: string)
    ensures Get(Set(ps, key, value), other) == if other == key then Some(value) else Get(ps, other)
  {
    if ps != [] {
      if ps[0].key == key {
        GetWithout(ps[1..], key, other);
      } else {
        GetSet(ps[1..], key, value, other);
      }
    }
  }

  /** Setting a key that is not there yet appends one entry at the end. */
  lemma {:induction false} SetFresh(ps: seq<Param>, key: string, value: string)
    requires Get(ps, key).None?
    ensures Set(ps, key, value) == ps + [Param(key, value)]
  {
    if ps != [] {
      SetFresh(ps[1..], key, value);
      assert [ps[0]] + (ps[1..] + [Param(key, value)]) == ps + [Param(key, value)];
    }
  }

  /** The `key=value` texts of the entries, keys and values passed through `encode`. */
  function Pieces(ps: seq<Param>, encode: string -> string): (r: seq<string>)
    ensures |r| == |ps|
  {
    if ps == [] then [] else [encode(ps[0].key) + "=" + encode(ps[0].value)] + Pieces(ps[1..], encode)
  }

  /** `params.toString()`: the entries joined by "&"; no entries give the empty string. */
  function Render(ps: seq<Param>, encode: string -> string): string {
    if ps == [] then "" else Join(Pieces(ps, encode), '&')
  }

  /** Entries render to a non-empty text. */
  lemma RenderNonEmpty(ps: seq<Param>, encode: string -> string)
    ensures Render(ps, encode) == "" <==> ps == []
  {
    if ps != [] {
      var pieces := Pieces(ps, encode);
      assert pieces[0] != "" by {
        assert |encode(ps[0].key) + "=" + encode(ps[0].value)| > 0;
      }
      if |pieces| > 1 {
        assert Join(pieces, '&') == pieces[0] + ['&'] + Join(pieces[1..], '&');
      }
    }
  }

  /** A path with its query: "?" and the rendered entries, or the bare path when there are none. */
  function Href(path: string, ps: seq<Param>, encode: string -> string): string {
    if ps == [] then path else path + "?" + Render(ps, encode)
  }

  /** One `key=value` text read back: the key before the first "=", the value after it. */
  function ParsePiece(piece: string, decode: string -> string): Param {
    var kv := Split(piece, '=');
    Param(decode(kv[0]), if |kv| > 1 then decode(Join(kv[1..], '=')) else "")
  }

  /** The entries of the pieces of a query string, empty pieces skipped. */
  function ParsePieces(pieces: seq<string>, decode: string -> string): seq<Param> {
    if pieces == [] then []
    else if pieces[0] == "" then ParsePieces(pieces[1..], decode)
    else [ParsePiece(pieces[0], decode)] + ParsePieces(pieces[1..], decode)
  }

  /** `new URLSearchParams(query)` for a query string without its leading "?". */
  function Parse(query: string, decode: string -> string): seq<Param> {
    if query == "" then [] else ParsePieces(Split(query, '&'), decode)
  }

  /** An encoding that `decode` undoes and whose output never holds "&" or "=". */
  ghost predicate Codec(encode: string -> string, decode: string -> string) {
    forall x :: decode(encode(x)) == x && '&' !in encode(x) && '=' !in encode(x)
  }

  lemma {:induction false} ParsePiecesOfPieces(ps: seq<Param>, encode: string -> string, decode: string -> string)
    requires Codec(encode, decode)
    ensures ParsePieces(Pieces(ps, encode), decode) == ps
  {
    if ps != [] {
      var k, v := encode(ps[0].key), encode(ps[0].value);
      var piece := k + "=" + v;
      assert piece != "";
      SplitAtFirst(k, v, '=');
      SplitNoSep(v, '=');
      assert Split(piece, '=') == [k, v];
      assert Pieces(ps, encode)[1..] == Pieces(ps[1..], encode);
      ParsePiecesOfPieces(ps[1..], encode, decode);
    }
  }

  /** Reading back a rendered query string gives the same entries in the same order. */
  lemma ParseRender(ps: seq<Param>, encode: string -> string, decode: string -> string)
    requires Codec(encode, decode)
    ensures Parse(Render(ps, encode), decode) == ps
  {
    if ps != [] {
      var pieces := Pieces(ps, encode);
      forall i | 0 <= i < |pieces| ensures '&' !in pieces[i] {
        PieceHasNoAmpersand(ps, encode, decode, i);
      }
      JoinSplit(pieces, '&');
      assert pieces[0] != "" by { PieceHasNoAmpersand(ps, encode, decode, 0); }
      ParsePiecesOfPieces(ps, encode, decode);
    }
  }

  lemma {:induction false} PieceHasNoAmpersand(ps: seq<Param>, encode: string -> string, decode: string -> string, i: nat)
    requires Codec(encode, decode)
    requires i < |ps|
    ensures '&' !in Pieces(ps, encode)[i] && '=' in Pieces(ps, encode)[i]
  {
    if i == 0 {
      var k, v := encode(ps[0].key), encode(ps[0].value);
      assert (k + "=" + v)[|k|] == '=';
    } else {
      PieceHasNoAmpersand(ps[1..], encode, decode, i - 1);
    }
  }
}
