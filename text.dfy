/**
 * Python's `str.split(sep)` and `sep.join(pieces)` for a one-character separator,
 * and the path join the script uses.
 */
module Text {

  /**
   * `s.split(c)`: the pieces of `s` between occurrences of `c`, left to right.
   * There is always at least one piece (`"".split(c) == [""]`) and no piece holds `c`.
   */
  function Split(s: string, c: char): (pieces: seq<string>)
    ensures |pieces| >= 1
    ensures forall k | 0 <= k < |pieces| :: c !in pieces[k]
    decreases |s|
  {
    if s == [] then [""]
    else
      var rest := Split(s[1..], c);
      if s[0] == c then [""] + rest
      else [[s[0]] + rest[0]] + rest[1..]
  }

  /** `c.join(pieces)`. */
  function Join(pieces: seq<string>, c: char): string
    requires |pieces| >= 1
  {
    if |pieces| == 1 then pieces[0] else pieces[0] + [c] + Join(pieces[1..], c)
  }

  /** `s.endswith(suffix)`. */
  predicate EndsWith(s: string, suffix: string)
  {
    |s| >= |suffix| && s[|s| - |suffix|..] == suffix
  }

  /** `Path(root).joinpath(relative)` for a relative path, without normalisation. */
  function JoinPath(root: string, relative: string): string
  {
    root + "/" + relative
  }

  /** Joining the pieces of a split gives the original string back. */
  lemma {:induction false} JoinSplit(s: string, c: char)
    ensures Join(Split(s, c), c) == s
    decreases |s|
  {
    if s != [] {
      JoinSplit(s[1..], c);
      var rest := Split(s[1..], c);
      if s[0] == c {
        assert Split(s, c) == [""] + rest;
        assert ([""] + rest)[1..] == rest;
        assert Join([""] + rest, c) == [c] + Join(rest, c);
        assert s == [c] + s[1..];
      } else {
        var first := [s[0]] + rest[0];
        assert Split(s, c) == [first] + rest[1..];
        if |rest| == 1 {
          assert Join([first] + rest[1..], c) == first;
        } else {
          assert ([first] + rest[1..])[1..] == rest[1..];
          assert Join(rest, c) == rest[0] + [c] + Join(rest[1..], c);
        }
        assert s == [s[0]] + s[1..];
      }
    }
  }

  /** Splitting `p + t` where `p` holds no separator glues `p` onto the first piece of `t`. */
  lemma {:induction false} SplitPrefix(p: string, t: string, c: char)
    requires c !in p
    ensures Split(p + t, c) == [p + Split(t, c)[0]] + Split(t, c)[1..]
    decreases |p|
  {
    if p == [] {
      var r := Split(t, c);
      assert p + t == t;
      assert p + r[0] == r[0];
      assert [r[0]] + r[1..] == r;
    } else {
      var r := Split(t, c);
      SplitPrefix(p[1..], t, c);
      assert (p + t)[0] == p[0] && p[0] != c;
      assert (p + t)[1..] == p[1..] + t;
      var rest := Split(p[1..] + t, c);
      assert rest == [p[1..] + r[0]] + r[1..];
      assert Split(p + t, c) == [[p[0]] + rest[0]] + rest[1..];
      assert rest[0] == p[1..] + r[0] && rest[1..] == r[1..];
      assert [p[0]] + (p[1..] + r[0]) == p + r[0];
    }
  }

  /** Splitting a join gives the pieces back when no piece holds the separator. */
  lemma {:induction false} SplitJoin(pieces: seq<string>, c: char)
    requires |pieces| >= 1
    requires forall k | 0 <= k < |pieces| :: c !in pieces[k]
    ensures Split(Join(pieces, c), c) == pieces
    decreases |pieces|
  {
    if |pieces| == 1 {
      SplitPrefix(pieces[0], [], c);
      assert pieces[0] + [] == pieces[0];
    } else {
      var tail := Join(pieces[1..], c);
      SplitJoin(pieces[1..], c);
      assert Join(pieces, c) == pieces[0] + ([c] + tail);
      SplitPrefix(pieces[0], [c] + tail, c);
      assert ([c] + tail)[1..] == tail;
      assert Split([c] + tail, c) == [""] + pieces[1..];
      assert pieces[0] + "" == pieces[0];
    }
  }

  /** Appending a piece to a join appends the separator and that piece. */
  lemma {:induction false} JoinSnoc(pieces: seq<string>, last: string, c: char)
    requires |pieces| >= 1
    ensures Join(pieces + [last], c) == Join(pieces, c) + [c] + last
    decreases |pieces|
  {
    if |pieces| == 1 {
      assert (pieces + [last])[1..] == [last];
    } else {
      JoinSnoc(pieces[1..], last, c);
      assert (pieces + [last])[1..] == pieces[1..] + [last];
    }
  }

  /** Putting `y` in the last place of a join appends `y` to the join with an empty last piece. */
  lemma JoinLast(init: seq<string>, y: string, c: char)
    ensures Join(init + [y], c) == Join(init + [""], c) + y
  {
    if init == [] {
      assert init + [y] == [y];
      assert init + [""] == [""];
    } else {
      JoinSnoc(init, y, c);
      JoinSnoc(init, "", c);
    }
  }

  /** Equal strings with the same prefix have equal remainders. */
  lemma CancelPrefix(p: string, r: string, r': string)
    requires p + r == p + r'
    ensures r == r'
  {
    assert r == (p + r)[|p|..];
    assert r' == (p + r')[|p|..];
  }

  /**
   * Cutting at the first `q`: when `a` and `b` hold no `q` and `r` and `r'`
   * both start with one, `a + r == b + r'` forces `a == b` and `r == r'`.
   */
  lemma UpToFirst(a: string, r: string, b: string, r': string, q: char)
    requires q !in a && q !in b
    requires |r| >= 1 && r[0] == q && |r'| >= 1 && r'[0] == q
    requires a + r == b + r'
    ensures a == b && r == r'
  {
    var s := a + r;
    forall k | 0 <= k < |a| ensures s[k] != q {
      assert s[k] == a[k];
    }
    forall k | 0 <= k < |b| ensures s[k] != q {
      assert s[k] == (b + r')[k] == b[k];
    }
    assert s[|a|] == q;
    assert s[|b|] == (b + r')[|b|] == q;
    assert |a| == |b|;
    assert a == s[..|a|];
    assert b == (b + r')[..|b|];
    CancelPrefix(a, r, r');
  }
}
