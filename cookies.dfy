/**
 * Cookie-header parsing as the middleware does it by hand: the header is split on
 * `;`, each piece is split on `=`, the first field (with at most one leading space
 * dropped) is the cookie's key and the second field, when there is one, its value.
 */
module Cookies {
  import opened Wrappers

  /** Joins `pieces` with the separator `d` between consecutive pieces. */
  function Join(pieces: seq<string>, d: char): string
    requires |pieces| >= 1
    decreases |pieces|
  {
    if |pieces| == 1 then pieces[0] else pieces[0] + [d] + Join(pieces[1..], d)
  }

  /**
   * `s.split(d)` for a one-character separator: the maximal separator-free pieces of
   * `s`, in order. There is always at least one piece, and joining them back gives `s`.
   */
  function Split(s: string, d: char): (pieces: seq<string>)
    ensures |pieces| >= 1
    ensures forall i :: 0 <= i < |pieces| ==> d !in pieces[i]
    ensures Join(pieces, d) == s
    decreases |s|
  {
    if s == [] then [""]
    else
      var rest := Split(s[1..], d);
      if s[0] == d then
        assert s == [d] + s[1..];
        [""] + rest
      else
        var pieces := [[s[0]] + rest[0]] + rest[1..];
        assert pieces[1..] == rest[1..];
        assert s == [s[0]] + s[1..];
        pieces
  }

  /** How Split treats a first character that is not the separator. */
  lemma SplitCons(s: string, d: char)
    requires s != [] && s[0] != d
    ensures Split(s, d) == [[s[0]] + Split(s[1..], d)[0]] + Split(s[1..], d)[1..]
  {
  }

  /**
   * The first piece is the longest separator-free prefix: it is a prefix of `s`, and
   * `s` ends or has the separator right after it. There is one piece exactly when `s`
   * holds no separator.
   */
  lemma {:induction false} SplitHead(s: string, d: char)
    ensures Split(s, d)[0] <= s
    ensures |Split(s, d)[0]| == |s| || s[|Split(s, d)[0]|] == d
    ensures |Split(s, d)| == 1 <==> d !in s
    decreases |s|
  {
    if s != [] {
      SplitHead(s[1..], d);
      if s[0] != d {
        SplitCons(s, d);
        assert s == [s[0]] + s[1..];
      }
    }
  }

  /** Splitting `p + s` where `p` has no separator: `p` is glued to the front of the first piece. */
  lemma {:induction false} SplitPrefix(p: string, s: string, d: char)
    requires d !in p
    ensures Split(p + s, d) == [p + Split(s, d)[0]] + Split(s, d)[1..]
    decreases |p|
  {
    var tail := Split(s, d);
    if p == [] {
      assert p + s == s;
      assert p + tail[0] == tail[0];
      assert [tail[0]] + tail[1..] == tail;
    } else {
      var q := p + s;
      assert q[0] == p[0];
      assert q[1..] == p[1..] + s;
      SplitPrefix(p[1..], s, d);
      SplitCons(q, d);
      assert [p[0]] + (p[1..] + tail[0]) == p + tail[0];
    }
  }

  /** Split undoes Join when no piece holds the separator. */
  lemma {:induction false} SplitJoin(pieces: seq<string>, d: char)
    requires |pieces| >= 1
    requires forall i :: 0 <= i < |pieces| ==> d !in pieces[i]
    ensures Split(Join(pieces, d), d) == pieces
    decreases |pieces|
  {
    if |pieces| == 1 {
      SplitPrefix(pieces[0], "", d);
      assert pieces[0] + "" == pieces[0];
    } else {
      var tail := Join(pieces[1..], d);
      SplitJoin(pieces[1..], d);
      assert Join(pieces, d) == pieces[0] + ([d] + tail);
      SplitPrefix(pieces[0], [d] + tail, d);
      var after := Split([d] + tail, d);
      assert ([d] + tail)[1..] == tail;
      assert after == [""] + pieces[1..];
      assert pieces[0] + after[0] == pieces[0];
      assert after[1..] == pieces[1..];
      assert pieces == [pieces[0]] + pieces[1..];
    }
  }

  /** The first `=`-field of a cookie piece, before any space is dropped. */
  function RawName(cookie: string): string
  {
    Split(cookie, '=')[0]
  }

  /**
   * The key of a cookie piece (auth.js lines 46-52): the first `=`-field, with one
   * leading space dropped when there is one. The raw field is the longest `=`-free
   * prefix of the piece, so it ends at the piece's end or at an `=`.
   */
  function CookieKey(cookie: string): (key: string)
    ensures '=' !in key
    ensures if |cookie| > 0 && cookie[0] == ' ' then " " + key == RawName(cookie) else key == RawName(cookie)
    ensures RawName(cookie) <= cookie
    ensures |RawName(cookie)| == |cookie| || cookie[|RawName(cookie)|] == '='
  {
    SplitHead(cookie, '=');
    var name := RawName(cookie);
    if |name| > 0 && name[0] == ' ' then name[1..] else name
  }

  /** The head of a join is its first piece, followed by a separator when more pieces come. */
  lemma JoinHead(pieces: seq<string>, d: char)
    requires |pieces| >= 1
    ensures pieces[0] <= Join(pieces, d)
    ensures |pieces| > 1 ==> |Join(pieces, d)| > |pieces[0]| && Join(pieces, d)[|pieces[0]|] == d
  {
  }

  /**
   * The value of a cookie piece (auth.js lines 56 and 70): the second `=`-field. It is
   * undefined exactly when the piece holds no `=`; otherwise it is the `=`-free text that
   * follows the raw name and its `=`, up to the next `=` or the end.
   */
  function CookieValue(cookie: string): (value: Option<string>)
    ensures value.None? <==> '=' !in cookie
    ensures value.Some? ==>
      && '=' !in value.value
      && RawName(cookie) + "=" + value.value <= cookie
      && var n := |RawName(cookie)| + 1 + |value.value|; n == |cookie| || cookie[n] == '='
  {
    var fields := Split(cookie, '=');
    SplitHead(cookie, '=');
    if |fields| > 1 then
      JoinHead(fields, '=');
      JoinHead(fields[1..], '=');
      assert Join(fields, '=') == fields[0] + "=" + Join(fields[1..], '=');
      Some(fields[1])
    else None
  }

  /** A `;`-piece of the header as the middleware's loop sees it: its key and its value. */
  datatype Piece = Piece(key: string, value: Option<string>)

  /** `cookie.split("=")`, read as key and value. */
  function ParsePiece(cookie: string): Piece
  {
    Piece(CookieKey(cookie), CookieValue(cookie))
  }

  /** Each piece read as key and value, in order. */
  function Pieces(cookies: seq<string>): (pieces: seq<Piece>)
    ensures |pieces| == |cookies|
  {
    seq(|cookies|, i requires 0 <= i < |cookies| => ParsePiece(cookies[i]))
  }

  /** The header split on `;`, each piece read as key and value (auth.js lines 27 and 45-52). */
  function ParseHeader(header: string): seq<Piece>
  {
    Pieces(Split(header, ';'))
  }

  /** No `;` and no `=`: text that survives both splits unchanged. */
  predicate Plain(s: string)
  {
    ';' !in s && '=' !in s
  }

  /** The `name=value` pairs of a `Cookie` request header, joined by "; " (section 5.4 of RFC 6265). */
  function Render(cookies: seq<(string, string)>): string
    requires |cookies| >= 1
  {
    Join(RenderPieces(cookies), ';')
  }

  function RenderPieces(cookies: seq<(string, string)>): (pieces: seq<string>)
    ensures |pieces| == |cookies|
  {
    seq(|cookies|, i requires 0 <= i < |cookies| =>
      (if i == 0 then "" else " ") + cookies[i].0 + "=" + cookies[i].1)
  }

  /** A cookie as a browser sends it: a plain name that does not start with a space, and a plain value. */
  predicate WellFormed(cookie: (string, string))
  {
    Plain(cookie.0) && Plain(cookie.1) && (|cookie.0| > 0 ==> cookie.0[0] != ' ')
  }

  /** Parsing one rendered piece gives back the name and the value. */
  lemma {:induction false} ParseRenderedPiece(prefix: string, name: string, value: string)
    requires prefix == "" || prefix == " "
    requires WellFormed((name, value))
    ensures ParsePiece(prefix + name + "=" + value) == Piece(name, Some(value))
  {
    var piece := prefix + name + "=" + value;
    assert Join([prefix + name, value], '=') == piece;
    assert '=' !in prefix + name;
    SplitJoin([prefix + name, value], '=');
    assert Split(piece, '=') == [prefix + name, value];
  }

  /**
   * Parsing a rendered header gives back every cookie in order: one piece per cookie,
   * whose key is the cookie's name and whose value is the cookie's value.
   */
  lemma {:induction false} RenderRoundTrip(cookies: seq<(string, string)>)
    requires |cookies| >= 1
    requires forall i :: 0 <= i < |cookies| ==> WellFormed(cookies[i])
    ensures |ParseHeader(Render(cookies))| == |cookies|
    ensures forall i :: 0 <= i < |cookies| ==>
      ParseHeader(Render(cookies))[i] == Piece(cookies[i].0, Some(cookies[i].1))
  {
    var pieces := RenderPieces(cookies);
    forall i | 0 <= i < |pieces| ensures ';' !in pieces[i] {
      assert pieces[i] == (if i == 0 then "" else " ") + cookies[i].0 + "=" + cookies[i].1;
    }
    SplitJoin(pieces, ';');
    forall i | 0 <= i < |cookies|
      ensures ParsePiece(pieces[i]) == Piece(cookies[i].0, Some(cookies[i].1))
    {
      ParseRenderedPiece(if i == 0 then "" else " ", cookies[i].0, cookies[i].1);
    }
  }

  /** A header of a single well-formed cookie is one piece. */
  lemma SingleCookieHeader(name: string, value: string)
    requires WellFormed((name, value))
    ensures ParseHeader(name + "=" + value) == [Piece(name, Some(value))]
  {
    var cookies := [(name, value)];
    assert "" + name == name;
    assert RenderPieces(cookies)[0] == name + "=" + value;
    assert Render(cookies) == name + "=" + value;
    RenderRoundTrip(cookies);
  }

  /** A value holding `=` is cut at it: only the text between the first and second `=` is kept. */
  lemma {:induction false} ValueStopsAtSecondEquals(name: string, value: string, rest: string)
    requires '=' !in name && '=' !in value && '=' !in rest
    ensures CookieValue(name + "=" + value + "=" + rest) == Some(value)
  {
    var pieces := [name, value, rest];
    assert pieces[1..][1..] == [rest];
    assert Join(pieces[1..], '=') == value + "=" + rest;
    assert Join(pieces, '=') == name + "=" + value + "=" + rest;
    SplitJoin([name, value, rest], '=');
  }
}
