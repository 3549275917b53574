/** The part of node's `path` module the upload code relies on: `path.join`
    and `path.posix.join` (join with `/`, then normalise) and `path.extname`,
    for absolute paths on a POSIX system. */
module Paths {
  import opened JsValues

  /** `p.split('/')`. */
  function Split(p: string): (segs: seq<string>)
    ensures |segs| >= 1
  {
    if p == [] then [""]
    else
      var rest := Split(p[1..]);
      if p[0] == '/' then [""] + rest else [[p[0]] + rest[0]] + rest[1..]
  }

  /** Walking the segments left to right: empty and `.` segments vanish and
      `..` drops the segment before it (never climbing above the root). */
  function Resolve(segs: seq<string>): seq<string>
  {
    if segs == [] then []
    else
      var done := Resolve(segs[..|segs| - 1]);
      var s := segs[|segs| - 1];
      if s == "" || s == "." then done
      else if s == ".." then (if done == [] then [] else done[..|done| - 1])
      else done + [s]
  }

  /** `path.normalize` of an absolute path. */
  function Normalize(p: string): string
  {
    (if StartsWith(p, "/") then "/" else "") + Join(Resolve(Split(p)), "/")
  }

  /** `path.join(parts...)`, for a first part that is absolute. */
  function PathJoin(parts: seq<string>): string
  {
    Normalize(Join(parts, "/"))
  }

  /** A segment normalisation leaves alone. */
  predicate Plain(s: string)
  {
    s != "" && s != "." && s != ".." && '/' !in s
  }

  /** p lies strictly inside the directory dir. */
  predicate Under(p: string, dir: string)
  {
    StartsWith(p, dir + "/") && |p| > |dir| + 1
  }

  lemma {:induction false} SplitNoSlash(s: string)
    requires '/' !in s
    ensures Split(s) == [s]
  {
    if s != [] {
      SplitNoSlash(s[1..]);
      assert [s[0]] + s[1..] == s;
    }
  }

  /** Splitting at one more slash splits both sides. */
  lemma {:induction false} SplitAtSlash(a: string, b: string)
    ensures Split(a + "/" + b) == Split(a) + Split(b)
  {
    if a == [] {
      assert a + "/" + b == ['/'] + b;
      assert (['/'] + b)[1..] == b;
    } else {
      var p := a + "/" + b;
      assert p[1..] == a[1..] + "/" + b;
      SplitAtSlash(a[1..], b);
    }
  }

  /** Joining slash-free pieces and splitting again gives the pieces back. */
  lemma {:induction false} SplitJoin(segs: seq<string>)
    requires segs != []
    requires forall i :: 0 <= i < |segs| ==> '/' !in segs[i]
    ensures Split(Join(segs, "/")) == segs
  {
    if |segs| == 1 {
      SplitNoSlash(segs[0]);
    } else {
      SplitJoin(segs[1..]);
      SplitNoSlash(segs[0]);
      SplitAtSlash(segs[0], Join(segs[1..], "/"));
      assert segs == [segs[0]] + segs[1..];
    }
  }

  /** Plain segments after any prefix are kept as they are. */
  lemma {:induction false} ResolvePlain(pre: seq<string>, segs: seq<string>)
    requires forall i :: 0 <= i < |segs| ==> Plain(segs[i])
    ensures Resolve(pre + segs) == Resolve(pre) + segs
  {
    if segs != [] {
      var init := segs[..|segs| - 1];
      ResolvePlain(pre, init);
      assert (pre + segs)[..|pre + segs| - 1] == pre + init;
      assert init + [segs[|segs| - 1]] == segs;
    } else {
      assert pre + segs == pre;
    }
  }

  /** An absolute path made of plain segments is already normal. */
  lemma NormalizePlain(segs: seq<string>)
    requires segs != []
    requires forall i :: 0 <= i < |segs| ==> Plain(segs[i])
    ensures Normalize("/" + Join(segs, "/")) == "/" + Join(segs, "/")
  {
    var j := Join(segs, "/");
    var p := "/" + j;
    SplitAtSlash("", j);
    assert "" + "/" + j == p;
    assert Split("") == [""];
    SplitJoin(segs);
    ResolvePlain([""], segs);
    assert Resolve([""]) == [];
    assert Resolve(Split(p)) == segs;
    assert StartsWith(p, "/");
  }

  /** Joining with one more plain segment. */
  lemma JoinSnoc(segs: seq<string>, s: string)
    requires segs != []
    ensures Join(segs + [s], "/") == Join(segs, "/") + "/" + s
  {
    JoinAppend(segs, [s]);
  }

  lemma {:induction false} JoinAppend(a: seq<string>, b: seq<string>)
    requires a != [] && b != []
    ensures Join(a + b, "/") == Join(a, "/") + "/" + Join(b, "/")
  {
    if |a| == 1 {
      assert (a + b)[1..] == b;
    } else {
      JoinAppend(a[1..], b);
      assert (a + b)[1..] == a[1..] + b;
    }
  }

  /** `path.basename`: what follows the last slash. */
  function Basename(p: string): (b: string)
    ensures '/' !in b
    ensures |b| <= |p| && b == p[|p| - |b|..]
    ensures |b| < |p| ==> p[|p| - |b| - 1] == '/'
  {
    p[|p| - TailLength(p, '/')..]
  }

  /** `path.extname`: the base name from its last dot on, or nothing when the
      base name has no dot, when its only dot is its first character, or when
      it is `..`. */
  function ExtName(p: string): string
  {
    var b := Basename(p);
    var n := TailLength(b, '.');
    if n == |b| then ""
    else
      var d := |b| - n - 1;
      if d == 0 || b == ".." then "" else b[d..]
  }

  /** An extension is a dot followed by no other dot or slash; there is one
      whenever the base name has a dot after its first character. */
  lemma ExtNameShape(p: string)
    ensures var e := ExtName(p);
            (e != "" ==> e[0] == '.' && '/' !in e && '.' !in e[1..])
            && ('.' !in Basename(p) ==> e == "")
            && ('.' in Basename(p) && Basename(p)[0] != '.' ==> e != "")
  {
    var b := Basename(p);
    var n := TailLength(b, '.');
    if n < |b| {
      var d := |b| - n - 1;
      assert b[d] == '.';
      if d != 0 && b != ".." {
        var e := b[d..];
        assert e[1..] == b[d + 1..];
        assert forall i :: 0 <= i < |e| ==> e[i] == b[d + i];
      }
    } else {
      TailLengthNone(b, '.');
      assert '.' !in b by {
        forall i | 0 <= i < |b|
          ensures b[i] != '.'
        {
        }
      }
    }
  }

  /** Joining plain segments onto an absolute path made of plain segments
      needs no normalising. */
  lemma PathJoinPlain(rs: seq<string>, more: seq<string>)
    requires rs != [] && more != []
    requires forall i :: 0 <= i < |rs| ==> Plain(rs[i])
    requires forall i :: 0 <= i < |more| ==> Plain(more[i])
    ensures PathJoin(["/" + Join(rs, "/")] + more) == "/" + Join(rs, "/") + "/" + Join(more, "/")
  {
    var root := "/" + Join(rs, "/");
    var whole := "/" + Join(rs + more, "/");
    assert Join([root] + more, "/") == whole && whole == root + "/" + Join(more, "/") by {
      JoinCons(root, more);
      JoinAppend(rs, more);
    }
    assert Normalize(whole) == whole by {
      PlainAppend(rs, more);
      NormalizePlain(rs + more);
    }
  }

  lemma JoinCons(x: string, more: seq<string>)
    requires more != []
    ensures Join([x] + more, "/") == x + "/" + Join(more, "/")
  {
    assert ([x] + more)[1..] == more;
  }

  lemma PlainAppend(a: seq<string>, b: seq<string>)
    requires forall i :: 0 <= i < |a| ==> Plain(a[i])
    requires forall i :: 0 <= i < |b| ==> Plain(b[i])
    ensures forall i :: 0 <= i < |a + b| ==> Plain((a + b)[i])
  {
  }

  /** With no c in s, everything is the tail after the last c. */
  lemma {:induction false} TailLengthNone(s: string, c: char)
    requires c !in s
    ensures TailLength(s, c) == |s|
  {
    if s != [] {
      TailLengthNone(s[..|s| - 1], c);
    }
  }

  /** The tail after the last c of x + [c] + y, when y has no c, is y. */
  lemma {:induction false} TailLengthAfter(x: string, c: char, y: string)
    requires c !in y
    ensures TailLength(x + [c] + y, c) == |y|
  {
    var s := x + [c] + y;
    if y != [] {
      var y' := y[..|y| - 1];
      assert s[..|s| - 1] == x + [c] + y';
      TailLengthAfter(x, c, y');
    } else {
      assert s[|s| - 1] == c;
    }
  }

  /** A slash-free name is its own base name, and its extension starts at its
      last dot when that dot is not its first character. */
  lemma ExtNameOf(x: string, e: string)
    requires '/' !in x + e && x != [] && x[0] != '.'
    requires e != [] && e[0] == '.' && '.' !in e[1..]
    ensures Basename(x + e) == x + e
    ensures ExtName(x + e) == e
  {
    var p := x + e;
    TailLengthNone(p, '/');
    assert p[|p| - |p|..] == p;
    assert p == x + ['.'] + e[1..];
    TailLengthAfter(x, '.', e[1..]);
    assert p[|x|..] == e;
  }
}
