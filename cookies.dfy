/**
 * `updateCookies` (run.js): the shared cookie string is rebuilt from every
 * response that carries a `set-cookie` header list, keeping of each entry the
 * text before its first `;` and joining those pieces with `"; "`.
 */
module Cookies {
  import opened Wrappers

  /** JavaScript's `s.split(';')`: the pieces between the semicolons, at least one. */
  function Split(s: string): (pieces: seq<string>)
    ensures |pieces| >= 1
    ensures forall i :: 0 <= i < |pieces| ==> ';' !in pieces[i]
  {
    if s == [] then [""]
    else if s[0] == ';' then [""] + Split(s[1..])
    else
      var rest := Split(s[1..]);
      [[s[0]] + rest[0]] + rest[1..]
  }

  /** JavaScript's `parts.join(sep)`; the empty list joins to `""`. */
  function Join(parts: seq<string>, sep: string): (joined: string)
    ensures parts == [] ==> joined == ""
    ensures parts != [] ==> parts[0] <= joined && |joined| == TotalLength(parts) + (|parts| - 1) * |sep|
  {
    if parts == [] then ""
    else if |parts| == 1 then parts[0]
    else parts[0] + sep + Join(parts[1..], sep)
  }

  /** The summed length of the parts. */
  function TotalLength(parts: seq<string>): nat {
    if parts == [] then 0 else |parts[0]| + TotalLength(parts[1..])
  }

  /** Splitting at `;` and joining back with `;` gives the string back. */
  lemma {:induction false} JoinSplit(s: string)
    ensures Join(Split(s), ";") == s
  {
    if s != [] {
      JoinSplit(s[1..]);
      var rest := Split(s[1..]);
      if s[0] == ';' {
        assert ([""] + rest)[1..] == rest;
      } else {
        var pieces := [[s[0]] + rest[0]] + rest[1..];
        if |rest| == 1 {
          assert pieces == [[s[0]] + rest[0]];
        } else {
          assert pieces[1..] == rest[1..];
          assert Join(rest, ";") == rest[0] + ";" + Join(rest[1..], ";");
        }
      }
    }
  }

  /** A string without `;` is a single piece. */
  lemma {:induction false} SplitNoSemicolon(s: string)
    requires ';' !in s
    ensures Split(s) == [s]
  {
    if s != [] {
      assert s[0] in s;
      SplitNoSemicolon(s[1..]);
      assert [s[0]] + s[1..] == s;
    }
  }

  /** Splitting `a;b` gives the pieces of `a` followed by those of `b`, when `a` has no `;`. */
  lemma {:induction false} SplitAtSemicolon(a: string, b: string)
    requires ';' !in a
    ensures Split(a + ";" + b) == [a] + Split(b)
  {
    if a == [] {
      assert a + ";" + b == [';'] + b;
      assert (a + ";" + b)[1..] == b;
    } else {
      assert (a + ";" + b)[1..] == a[1..] + ";" + b;
      SplitAtSemicolon(a[1..], b);
      assert [a[0]] + a[1..] == a;
    }
  }

  /** Joining pieces free of `;` and splitting at `;` gives the pieces back. */
  lemma {:induction false} SplitJoin(parts: seq<string>)
    requires |parts| >= 1
    requires forall i :: 0 <= i < |parts| ==> ';' !in parts[i]
    ensures Split(Join(parts, ";")) == parts
  {
    if |parts| == 1 {
      SplitNoSemicolon(parts[0]);
    } else {
      SplitJoin(parts[1..]);
      SplitAtSemicolon(parts[0], Join(parts[1..], ";"));
      assert [parts[0]] + parts[1..] == parts;
    }
  }

  /** `cookie.split(';')[0]`: the name=value pair of one `set-cookie` entry. */
  function CookiePair(cookie: string): (pair: string)
    ensures pair <= cookie
    ensures ';' !in pair
    ensures |pair| == |cookie| || cookie[|pair|] == ';'
  {
    PairIsFirstPiece(cookie);
    Split(cookie)[0]
  }

  /** The first piece of a split is the prefix before the first `;` (or the whole string). */
  lemma {:induction false} PairIsFirstPiece(s: string)
    ensures Split(s)[0] <= s
    ensures |Split(s)[0]| == |s| || s[|Split(s)[0]|] == ';'
  {
    if s != [] && s[0] != ';' {
      PairIsFirstPiece(s[1..]);
    }
  }

  /** The pairs of every entry, in header order. */
  function Pairs(setCookie: seq<string>): (pairs: seq<string>)
    ensures |pairs| == |setCookie|
    ensures forall i :: 0 <= i < |pairs| ==> pairs[i] == CookiePair(setCookie[i])
  {
    if setCookie == [] then [] else [CookiePair(setCookie[0])] + Pairs(setCookie[1..])
  }

  /** The cookie string built from one `set-cookie` list: `"; "`-joined pairs. */
  function CookieHeader(setCookie: seq<string>): (header: string)
    ensures setCookie == [] ==> header == ""
    ensures setCookie != [] ==> CookiePair(setCookie[0]) <= header
  {
    Join(Pairs(setCookie), "; ")
  }

  /** Each pair after the first carries the single space of the `"; "` separator. */
  function Spaced(pairs: seq<string>): (r: seq<string>)
    ensures |r| == |pairs|
    ensures forall i :: 0 <= i < |r| ==> r[i] == " " + pairs[i]
  {
    if pairs == [] then [] else [" " + pairs[0]] + Spaced(pairs[1..])
  }

  /**
   * Splitting the cookie string at `;` recovers the pairs, one per entry and in
   * order: the string holds exactly the entries' pairs and nothing of the old
   * value.
   */
  lemma {:induction false} CookieHeaderSegments(setCookie: seq<string>)
    requires |setCookie| >= 1
    ensures Split(CookieHeader(setCookie)) == [CookiePair(setCookie[0])] + Spaced(Pairs(setCookie)[1..])
  {
    SpacedJoin(Pairs(setCookie));
  }

  lemma {:induction false} SpacedJoin(parts: seq<string>)
    requires |parts| >= 1
    requires forall i :: 0 <= i < |parts| ==> ';' !in parts[i]
    ensures Split(Join(parts, "; ")) == [parts[0]] + Spaced(parts[1..])
  {
    if |parts| == 1 {
      SplitNoSemicolon(parts[0]);
    } else {
      var rest := parts[1..];
      SpacedJoin(rest);
      assert parts[0] + "; " + Join(rest, "; ") == parts[0] + ";" + (" " + Join(rest, "; "));
      SplitAtSemicolon(parts[0], " " + Join(rest, "; "));
      // a leading space joins the first piece of the rest
      var tail := Join(rest, "; ");
      assert (" " + tail)[1..] == tail;
      assert Split(" " + tail) == [" " + rest[0]] + Spaced(rest[1..]);
      assert Spaced(rest) == [" " + rest[0]] + Spaced(rest[1..]);
    }
  }

  /** An empty but present `set-cookie` list empties the cookie string. */
  lemma EmptyListClearsCookies()
    ensures CookieHeader([]) == ""
  {
  }

  /** The shared session state of run.js: the global `cookies` string. */
  class CookieJar {
    var cookies: string

    constructor ()
      ensures cookies == ""
    {
      cookies := "";
    }

    /** `updateCookies(response)`, given the response's `set-cookie` header list if any. */
    method UpdateCookies(setCookie: Option<seq<string>>)
      modifies this
      ensures setCookie.Some? ==> cookies == CookieHeader(setCookie.value)
      ensures setCookie.None? ==> cookies == old(cookies)
    {
      if setCookie.Some? {
        cookies := CookieHeader(setCookie.value);
      }
    }
  }
}
