/** Extraction of the `token` cookie from the raw `Cookie` header of the
    websocket upgrade request: `split(';')`, the first piece that
    `startsWith('token=')` (no trimming), then `split('=')[1]`. */
module Cookie {
  import opened Wrappers

  const TokenPrefix: string := "token="

  /** `s.split(d)` for a one-character separator: the pieces between the
      separators, in order, possibly empty, and always at least one. */
  function Split(s: string, d: char): (parts: seq<string>)
    ensures |parts| >= 1
    ensures forall i :: 0 <= i < |parts| ==> d !in parts[i]
  {
    if s == [] then [[]]
    else
      var rest := Split(s[1..], d);
      if s[0] == d then [[]] + rest
      else [[s[0]] + rest[0]] + rest[1..]
  }

  /** `parts.join(d)`, the inverse of `Split`. */
  function Join(parts: seq<string>, d: char): string
    requires |parts| >= 1
  {
    if |parts| == 1 then parts[0] else parts[0] + [d] + Join(parts[1..], d)
  }

  /** `s.startsWith(p)`. */
  predicate StartsWith(s: string, p: string)
  {
    |p| <= |s| && s[..|p|] == p
  }

  /** `segs.find(str => str.startsWith(prefix))`, as the index of the piece found. */
  function FindFirst(segs: seq<string>, prefix: string): (r: Option<nat>)
    ensures r.Some? ==> r.value < |segs| && StartsWith(segs[r.value], prefix)
    ensures r.Some? ==> forall j :: 0 <= j < r.value ==> !StartsWith(segs[j], prefix)
    ensures r.None? ==> forall j :: 0 <= j < |segs| ==> !StartsWith(segs[j], prefix)
  {
    if segs == [] then None
    else if StartsWith(segs[0], prefix) then Some(0)
    else
      match FindFirst(segs[1..], prefix)
      case None => None
      case Some(k) => Some(k + 1)
  }

  /** `i` is the index of the piece `find` returns. */
  ghost predicate FirstTokenSegment(segs: seq<string>, i: int)
  {
    && 0 <= i < |segs|
    && StartsWith(segs[i], TokenPrefix)
    && forall j :: 0 <= j < i ==> !StartsWith(segs[j], TokenPrefix)
  }

  /** `t` is what follows `token=` in `seg`, up to the next `=` or the end. */
  ghost predicate ValueAfterName(seg: string, t: string)
  {
    && StartsWith(seg, TokenPrefix + t)
    && '=' !in t
    && (|seg| == |TokenPrefix| + |t| || seg[|TokenPrefix| + |t|] == '=')
  }

  /** `seg.split('=')[1]` for a piece that starts with `token=`. */
  function TokenValue(seg: string): (t: string)
    requires StartsWith(seg, TokenPrefix)
    ensures ValueAfterName(seg, t)
  {
    var rest := seg[|TokenPrefix|..];
    assert seg == "token" + ['='] + rest;
    SplitAtSeparator("token", rest, '=');
    FirstPiece(rest, '=');
    var t := Split(seg, '=')[1];
    assert t == Split(rest, '=')[0];
    assert seg[..|TokenPrefix| + |t|] == TokenPrefix + rest[..|t|];
    t
  }

  /** The token the connection handler passes to verification, if any. The
      header is absent or empty (falsy), no piece starts with `token=`, or
      the value is empty (falsy): no token. */
  function ExtractToken(header: Option<string>): Option<string>
  {
    match header
    case None => None
    case Some(h) =>
      if h == "" then None
      else
        var segs := Split(h, ';');
        match FindFirst(segs, TokenPrefix)
        case None => None
        case Some(i) =>
          var t := TokenValue(segs[i]);
          if t == "" then None else Some(t)
  }

  // ---------------------------------------------------------------------
  // Split and Join

  /** A string without the separator splits into itself. */
  lemma {:induction false} SplitNoSeparator(a: string, d: char)
    requires d !in a
    ensures Split(a, d) == [a]
  {
    if a != [] {
      SplitNoSeparator(a[1..], d);
      assert [a[0]] + a[1..] == a;
    }
  }

  /** A separator after a separator-free prefix ends the first piece there. */
  lemma {:induction false} SplitAtSeparator(a: string, b: string, d: char)
    requires d !in a
    ensures Split(a + [d] + b, d) == [a] + Split(b, d)
  {
    var s := a + [d] + b;
    if a == [] {
      assert s[0] == d && s[1..] == b;
    } else {
      assert s[0] == a[0] && s[1..] == a[1..] + [d] + b;
      SplitAtSeparator(a[1..], b, d);
      assert [a[0]] + a[1..] == a;
    }
  }

  /** The first piece is the longest separator-free prefix. */
  lemma {:induction false} FirstPiece(s: string, d: char)
    ensures var p := Split(s, d)[0];
      |p| <= |s| && s[..|p|] == p && (|p| == |s| || s[|p|] == d)
  {
    if s != [] && s[0] != d {
      FirstPiece(s[1..], d);
    }
  }

  /** Joining the pieces gives back the header. */
  lemma {:induction false} JoinSplit(s: string, d: char)
    ensures Join(Split(s, d), d) == s
  {
    if s != [] {
      var rest := Split(s[1..], d);
      JoinSplit(s[1..], d);
      if s[0] == d {
        assert Split(s, d)[1..] == rest;
      } else if |rest| == 1 {
        assert [s[0]] + s[1..] == s;
      } else {
        var parts := Split(s, d);
        assert parts[1..] == rest[1..];
        assert Join(parts, d) == [s[0]] + (rest[0] + [d] + Join(rest[1..], d));
        assert [s[0]] + s[1..] == s;
      }
    }
  }

  /** Splitting a join of separator-free pieces gives back the pieces. */
  lemma {:induction false} SplitJoin(parts: seq<string>, d: char)
    requires |parts| >= 1
    requires forall i :: 0 <= i < |parts| ==> d !in parts[i]
    ensures Split(Join(parts, d), d) == parts
  {
    if |parts| == 1 {
      SplitNoSeparator(parts[0], d);
    } else {
      SplitJoin(parts[1..], d);
      SplitAtSeparator(parts[0], Join(parts[1..], d), d);
      assert [parts[0]] + parts[1..] == parts;
    }
  }

  // ---------------------------------------------------------------------
  // What ExtractToken returns

  /** Only one value fits after `token=` in a piece. */
  lemma ValueAfterNameUnique(seg: string, t1: string, t2: string)
    requires ValueAfterName(seg, t1) && ValueAfterName(seg, t2)
    ensures t1 == t2
  {
    var n := |TokenPrefix|;
    assert seg[n..n + |t1|] == t1 && seg[n..n + |t2|] == t2 by {
      assert (TokenPrefix + t1)[n..] == t1 && (TokenPrefix + t2)[n..] == t2;
    }
  }

  /** A token comes from the first piece that starts exactly with `token=`;
      it is what follows the `=` up to the next `=`, it is not empty, and it
      holds neither `=` nor `;`. */
  lemma ExtractTokenSound(header: Option<string>, t: string)
    requires ExtractToken(header) == Some(t)
    ensures header.Some? && header.value != ""
    ensures exists i :: FirstTokenSegment(Split(header.value, ';'), i)
                        && ValueAfterName(Split(header.value, ';')[i], t)
    ensures t != "" && '=' !in t && ';' !in t
  {
    var segs := Split(header.value, ';');
    var i := FindFirst(segs, TokenPrefix).value;
    assert FirstTokenSegment(segs, i);
    var seg := segs[i];
    forall k | 0 <= k < |t| ensures t[k] != ';' {
      assert t[k] == (TokenPrefix + t)[|TokenPrefix| + k] == seg[|TokenPrefix| + k];
    }
  }

  /** Conversely, a non-empty value after `token=` in the first such piece
      is the token returned. */
  lemma ExtractTokenComplete(h: string, i: int, t: string)
    requires FirstTokenSegment(Split(h, ';'), i)
    requires ValueAfterName(Split(h, ';')[i], t)
    requires t != ""
    ensures ExtractToken(Some(h)) == Some(t)
  {
    var segs := Split(h, ';');
    var k := FindFirst(segs, TokenPrefix).value;
    assert k == i;
    ValueAfterNameUnique(segs[i], TokenValue(segs[i]), t);
  }

  /** Soundness and completeness together, for any header. */
  lemma ExtractTokenExact(header: Option<string>)
    ensures ExtractToken(header).Some? ==> header.Some? && exists i ::
              FirstTokenSegment(Split(header.value, ';'), i)
              && ValueAfterName(Split(header.value, ';')[i], ExtractToken(header).value)
              && ExtractToken(header).value != ""
    ensures header.Some? ==> forall i, t {:trigger ValueAfterName(Split(header.value, ';')[i], t)} ::
              (FirstTokenSegment(Split(header.value, ';'), i)
               && ValueAfterName(Split(header.value, ';')[i], t) && t != "")
              ==> ExtractToken(header) == Some(t)
  {
    if ExtractToken(header).Some? {
      ExtractTokenSound(header, ExtractToken(header).value);
    }
    if header.Some? {
      forall i, t | FirstTokenSegment(Split(header.value, ';'), i)
                    && ValueAfterName(Split(header.value, ';')[i], t) && t != ""
        ensures ExtractToken(header) == Some(t)
      {
        ExtractTokenComplete(header.value, i, t);
      }
    }
  }

  /** The connection stays unbound without a header, without a piece that
      starts with `token=`, or when the value after `token=` is empty. */
  lemma ExtractTokenNone(header: Option<string>)
    ensures header.None? ==> ExtractToken(header).None?
    ensures header.Some? && (forall j :: 0 <= j < |Split(header.value, ';')| ==>
              !StartsWith(Split(header.value, ';')[j], TokenPrefix))
            ==> ExtractToken(header).None?
    ensures forall i ::
              (header.Some? && FirstTokenSegment(Split(header.value, ';'), i)
               && ValueAfterName(Split(header.value, ';')[i], ""))
              ==> ExtractToken(header).None?
  {
    if header.Some? {
      var segs := Split(header.value, ';');
      forall i | FirstTokenSegment(segs, i) && ValueAfterName(segs[i], "")
        ensures ExtractToken(header).None?
      {
        if header.value != "" {
          assert FindFirst(segs, TokenPrefix) == Some(i);
          ValueAfterNameUnique(segs[i], TokenValue(segs[i]), "");
        }
      }
    }
  }

  /** A cookie that follows another one carries the space the browser puts
      after `;`, so `find` never matches it: `a; token=v` yields no token. */
  lemma SpacedTokenIgnored(first: string, v: string)
    requires ';' !in first && ';' !in v
    requires !StartsWith(first, TokenPrefix)
    ensures ExtractToken(Some(first + "; token=" + v)) == None
  {
    var second := " token=" + v;
    assert ';' !in second;
    SplitNoSeparator(second, ';');
    SplitAtSeparator(first, second, ';');
    assert first + [';'] + second == first + "; token=" + v;
    var segs := Split(first + "; token=" + v, ';');
    assert segs == [first, second];
    assert !StartsWith(segs[1], TokenPrefix) by { assert segs[1][0] == ' '; }
  }

  /** The first `token=` piece wins over any later one. */
  lemma FirstTokenWins(v: string, rest: string)
    requires v != "" && '=' !in v && ';' !in v
    ensures ExtractToken(Some(TokenPrefix + v + ";" + rest)) == Some(v)
  {
    var h := TokenPrefix + v + ";" + rest;
    var first := TokenPrefix + v;
    assert ';' !in first;
    SplitAtSeparator(first, rest, ';');
    assert first + [';'] + rest == h;
    var segs := Split(h, ';');
    assert segs[0] == first;
    assert FirstTokenSegment(segs, 0);
    assert ValueAfterName(segs[0], v);
    ExtractTokenComplete(h, 0, v);
  }
}
