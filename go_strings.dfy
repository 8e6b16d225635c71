/**
 * The behaviour of the functions of Go's `strings` package that the runner
 * relies on: `Split` with a one-character separator, `Join`, and `Trim` with a
 * one-character cutset.
 */
module GoStrings {

  /** `strings.Split(s, string([c]))`: the pieces of `s` between occurrences of `c`. */
  function Split(s: string, c: char): (r: seq<string>)
    ensures |r| >= 1
  {
    if s == [] then [""]
    else
      var rest := Split(s[1..], c);
      if s[0] == c then [""] + rest
      else [[s[0]] + rest[0]] + rest[1..]
  }

  /** There is one piece more than there are separators, and no piece holds one. */
  lemma {:induction false} SplitShape(s: string, c: char)
    ensures |Split(s, c)| == multiset(s)[c] + 1
    ensures forall i :: 0 <= i < |Split(s, c)| ==> c !in Split(s, c)[i]
  {
    if s != [] {
      var rest := Split(s[1..], c);
      SplitShape(s[1..], c);
      assert s == [s[0]] + s[1..];
      assert multiset(s) == multiset([s[0]]) + multiset(s[1..]);
      if s[0] != c {
        var r := Split(s, c);
        forall i | 0 <= i < |r| ensures c !in r[i] {
          if i > 0 {
            assert r[i] == rest[i];
          } else {
            assert r[0] == [s[0]] + rest[0];
          }
        }
      }
    }
  }

  /** `strings.Join(ps, sep)`: the pieces separated by `sep`. */
  function Join(ps: seq<string>, sep: string): string
  {
    if |ps| == 0 then ""
    else if |ps| == 1 then ps[0]
    else ps[0] + sep + Join(ps[1..], sep)
  }

  /** Joining a piece in front of at least one other piece puts `sep` between them. */
  lemma JoinCons(p: string, ps: seq<string>, sep: string)
    requires |ps| >= 1
    ensures Join([p] + ps, sep) == p + sep + Join(ps, sep)
  {
    assert ([p] + ps)[1..] == ps;
  }

  /** Joining at least one piece with one more after it puts `sep` between them. */
  lemma {:induction false} JoinSnoc(ps: seq<string>, p: string, sep: string)
    requires |ps| >= 1
    ensures Join(ps + [p], sep) == Join(ps, sep) + sep + p
  {
    if |ps| == 1 {
      assert ps + [p] == [ps[0], p];
      assert [ps[0], p][1..] == [p];
    } else {
      JoinSnoc(ps[1..], p, sep);
      assert (ps + [p])[1..] == ps[1..] + [p];
    }
  }

  /** Joining the pieces of a split with the separator gives back the text. */
  lemma {:induction false} JoinSplit(s: string, c: char)
    ensures Join(Split(s, c), [c]) == s
  {
    if s != [] {
      var rest := Split(s[1..], c);
      JoinSplit(s[1..], c);
      assert s == [s[0]] + s[1..];
      if s[0] == c {
        JoinCons("", rest, [c]);
      } else if |rest| == 1 {
        assert Split(s, c) == [[s[0]] + rest[0]];
      } else {
        assert rest == [rest[0]] + rest[1..];
        JoinCons(rest[0], rest[1..], [c]);
        JoinCons([s[0]] + rest[0], rest[1..], [c]);
      }
    }
  }

  /** A piece without the separator splits into itself, with `t` splitting after it. */
  lemma {:induction false} SplitPiece(p: string, c: char, t: string)
    requires c !in p
    ensures Split(p + [c] + t, c) == [p] + Split(t, c)
  {
    if p != [] {
      SplitPiece(p[1..], c, t);
      assert (p + [c] + t)[1..] == p[1..] + [c] + t;
      assert p == [p[0]] + p[1..];
    } else {
      assert p + [c] + t == [c] + t;
      assert ([c] + t)[1..] == t;
    }
  }

  /** A string without the separator splits into exactly itself. */
  lemma {:induction false} SplitNoSeparator(p: string, c: char)
    requires c !in p
    ensures Split(p, c) == [p]
  {
    if p != [] {
      SplitNoSeparator(p[1..], c);
      assert p == [p[0]] + p[1..];
    }
  }

  /** Splitting the join of separator-free pieces gives back the pieces. */
  lemma {:induction false} SplitJoin(ps: seq<string>, c: char)
    requires |ps| >= 1
    requires forall i :: 0 <= i < |ps| ==> c !in ps[i]
    ensures Split(Join(ps, [c]), c) == ps
  {
    if |ps| == 1 {
      SplitNoSeparator(ps[0], c);
    } else {
      SplitJoin(ps[1..], c);
      SplitPiece(ps[0], c, Join(ps[1..], [c]));
      assert ps == [ps[0]] + ps[1..];
    }
  }

  /** The pieces joined, with `sep` before and after, join an empty piece, the pieces, and an empty piece. */
  lemma JoinFramed(m: seq<string>, sep: string)
    requires |m| >= 1
    ensures sep + Join(m, sep) + sep == Join([""] + m + [""], sep)
  {
    JoinCons("", m, sep);
    JoinSnoc([""] + m, "", sep);
  }

  /**
   * Text made of separator-free pieces joined by `c`, with `c` before and
   * after, splits into an empty piece, the pieces, and an empty piece.
   */
  lemma SplitFramed(m: seq<string>, c: char)
    requires |m| >= 1
    requires forall i :: 0 <= i < |m| ==> c !in m[i]
    ensures Split([c] + Join(m, [c]) + [c], c) == [""] + m + [""]
  {
    var ps := [""] + m + [""];
    JoinFramed(m, [c]);
    forall i | 0 <= i < |ps| ensures c !in ps[i] {
      if 0 < i < |ps| - 1 {
        assert ps[i] == m[i - 1];
      }
    }
    SplitJoin(ps, c);
  }

  /** `strings.TrimLeft(s, string([c]))`: drops every leading `c`. */
  function TrimLeft(s: string, c: char): string
  {
    if s != [] && s[0] == c then TrimLeft(s[1..], c) else s
  }

  /**
   * `TrimLeft` keeps a suffix that does not start with `c`, and every
   * character it drops is `c`.
   */
  lemma {:induction false} TrimLeftDropsOnly(s: string, c: char)
    ensures |TrimLeft(s, c)| <= |s| && TrimLeft(s, c) == s[|s| - |TrimLeft(s, c)|..]
    ensures TrimLeft(s, c) == [] || TrimLeft(s, c)[0] != c
    ensures forall i :: 0 <= i < |s| - |TrimLeft(s, c)| ==> s[i] == c
  {
    if s != [] && s[0] == c {
      TrimLeftDropsOnly(s[1..], c);
      assert s[1..][|s| - 1 - |TrimLeft(s, c)|..] == s[|s| - |TrimLeft(s, c)|..];
      forall i | 1 <= i < |s| - |TrimLeft(s, c)| ensures s[i] == c {
        assert s[i] == s[1..][i - 1];
      }
    }
  }

  /** `strings.TrimRight(s, string([c]))`: drops every trailing `c`. */
  function TrimRight(s: string, c: char): string
  {
    if s != [] && s[|s| - 1] == c then TrimRight(s[..|s| - 1], c) else s
  }

  /**
   * `TrimRight` keeps a prefix that does not end with `c`, and every
   * character it drops is `c`.
   */
  lemma {:induction false} TrimRightDropsOnly(s: string, c: char)
    ensures |TrimRight(s, c)| <= |s| && TrimRight(s, c) == s[..|TrimRight(s, c)|]
    ensures TrimRight(s, c) == [] || TrimRight(s, c)[|TrimRight(s, c)| - 1] != c
    ensures forall i :: |TrimRight(s, c)| <= i < |s| ==> s[i] == c
  {
    if s != [] && s[|s| - 1] == c {
      TrimRightDropsOnly(s[..|s| - 1], c);
      forall i | |TrimRight(s, c)| <= i < |s| - 1 ensures s[i] == c {
        assert s[i] == s[..|s| - 1][i];
      }
    }
  }

  /**
   * `r` is the infix of `s` that starts at `i`, and every character of `s`
   * around it belongs to `cut`.
   */
  predicate Surrounds(s: string, i: int, r: string, cut: set<char>)
  {
    && 0 <= i <= |s| - |r| && s[i..][..|r|] == r
    && (forall k :: 0 <= k < i ==> s[k] in cut)
    && (forall k :: i + |r| <= k < |s| ==> s[k] in cut)
  }

  /** An infix of an infix is an infix, surrounded by the union of both cuts. */
  lemma SurroundsCompose(s: string, i: int, a: string, cut1: set<char>, j: int, b: string, cut2: set<char>)
    requires Surrounds(s, i, a, cut1) && Surrounds(a, j, b, cut2)
    ensures Surrounds(s, i + j, b, cut1 + cut2)
  {
    forall k | i <= k < i + j ensures s[k] in cut1 + cut2 {
      assert s[k] == a[k - i];
    }
    forall k | i + j + |b| <= k < i + |a| ensures s[k] in cut1 + cut2 {
      assert s[k] == a[k - i];
    }
  }

  /** `strings.Trim(s, string([c]))`: drops every leading and every trailing `c`. */
  function Trim(s: string, c: char): string
  {
    TrimRight(TrimLeft(s, c), c)
  }

  /** What `Trim` keeps neither starts nor ends with `c`. */
  lemma TrimEnds(s: string, c: char)
    ensures Trim(s, c) == [] || (Trim(s, c)[0] != c && Trim(s, c)[|Trim(s, c)| - 1] != c)
  {
    TrimLeftDropsOnly(s, c);
    TrimRightDropsOnly(TrimLeft(s, c), c);
  }

  /**
   * What `Trim` keeps is the infix of `s` after its leading `c`s whose
   * surroundings are all `c`.
   */
  lemma TrimSurrounds(s: string, c: char)
    ensures Surrounds(s, |s| - |TrimLeft(s, c)|, Trim(s, c), {c})
  {
    var l := TrimLeft(s, c);
    TrimLeftDropsOnly(s, c);
    TrimRightDropsOnly(l, c);
    var i := |s| - |l|;
    forall k | i + |Trim(s, c)| <= k < |s| ensures s[k] in {c} {
      assert s[k] == l[k - i];
    }
  }
}
