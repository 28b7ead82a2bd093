/** Go's path.Join and path.Clean, which build every store key of the crypts and config
    handlers. A path is split at '/', "." and empty names are dropped, ".." removes the name
    before it (and is dropped at the root of a rooted path), and the result is joined with
    single slashes. */
module Paths {
  import opened Strings

  /** strings.Join(xs, "/"). */
  function JoinSlash(xs: seq<string>): string
  {
    if |xs| == 0 then "" else if |xs| == 1 then xs[0] else xs[0] + "/" + JoinSlash(xs[1..])
  }

  /** The pieces of `p` between slashes, empty pieces included: "a//b" gives ["a", "", "b"]. */
  function Split(p: string): (pieces: seq<string>)
    ensures |pieces| >= 1
    decreases |p|
  {
    if p == [] then [""]
    else if p[0] == '/' then [""] + Split(p[1..])
    else
      var rest := Split(p[1..]);
      [[p[0]] + rest[0]] + rest[1..]
  }

  /** No piece of a split path holds a slash. */
  lemma {:induction false} SplitPiecesHaveNoSlash(p: string)
    ensures forall i :: 0 <= i < |Split(p)| ==> '/' !in Split(p)[i]
    decreases |p|
  {
    if p != [] {
      var rest := Split(p[1..]);
      SplitPiecesHaveNoSlash(p[1..]);
      if p[0] != '/' {
        var first := [p[0]] + rest[0];
        assert '/' !in first by {
          assert forall c :: c in first ==> c == p[0] || c in rest[0];
        }
        assert Split(p) == [first] + rest[1..];
        assert forall i :: 1 <= i < |Split(p)| ==> Split(p)[i] == rest[i];
      }
    }
  }

  /** Split and strings.Join(_, "/") are inverse: the pieces joined with slashes give the
      path back. */
  lemma {:induction false} SplitJoin(p: string)
    ensures JoinSlash(Split(p)) == p
    decreases |p|
  {
    if p != [] {
      var rest := Split(p[1..]);
      SplitJoin(p[1..]);
      if p[0] == '/' {
        assert ([""] + rest)[1..] == rest;
        assert JoinSlash([""] + rest) == "" + "/" + JoinSlash(rest);
        assert p == "/" + p[1..];
      } else {
        SplitFirstName(p);
        JoinSlashExtendFirst([p[0]], rest);
        assert p == [p[0]] + p[1..];
      }
    }
  }

  /** Extending the first name extends the joined path in front. */
  lemma JoinSlashExtendFirst(c: string, xs: seq<string>)
    requires xs != []
    ensures JoinSlash([c + xs[0]] + xs[1..]) == c + JoinSlash(xs)
  {
    var ys := [c + xs[0]] + xs[1..];
    if |xs| == 1 {
      assert ys == [c + xs[0]];
    } else {
      JoinSlashFirst(c + xs[0], xs[1..]);
      SlashAssoc(c, xs[0], JoinSlash(xs[1..]));
    }
  }

  lemma JoinSlashFirst(x: string, xs: seq<string>)
    requires xs != []
    ensures JoinSlash([x] + xs) == x + "/" + JoinSlash(xs)
  {
    assert ([x] + xs)[0] == x && ([x] + xs)[1..] == xs;
  }

  lemma JoinSlashTwo(a: string, b: string)
    ensures JoinSlash([a, b]) == a + "/" + b
  {
    assert [a, b][1..] == [b];
  }

  lemma JoinSlashThree(a: string, b: string, c: string)
    ensures JoinSlash([a, b, c]) == a + "/" + b + "/" + c
  {
    assert [a, b, c][1..] == [b, c];
    assert [b, c][1..] == [c];
    assert JoinSlash([b, c]) == b + "/" + c;
    assert JoinSlash([a, b, c]) == a + "/" + (b + "/" + c);
  }

  lemma SlashAssoc(c: string, x: string, rest: string)
    ensures (c + x) + "/" + rest == c + (x + "/" + rest)
  {
  }

  /** The pieces that are not empty. */
  function NonEmpty(xs: seq<string>): (ys: seq<string>)
    ensures forall i :: 0 <= i < |ys| ==> ys[i] != "" && ys[i] in xs
  {
    if xs == [] then [] else (if xs[0] == "" then [] else [xs[0]]) + NonEmpty(xs[1..])
  }

  /** The names of a path: its non-empty pieces. */
  function Names(p: string): seq<string>
  {
    NonEmpty(Split(p))
  }

  /** A name that Clean keeps as it is. */
  predicate Plain(s: string)
  {
    s != "" && '/' !in s && s != "." && s != ".."
  }

  predicate AllPlain(xs: seq<string>)
  {
    forall i :: 0 <= i < |xs| ==> Plain(xs[i])
  }

  lemma AllPlainCat(xs: seq<string>, ys: seq<string>)
    requires AllPlain(xs) && AllPlain(ys)
    ensures AllPlain(xs + ys)
  {
    assert forall i :: |xs| <= i < |xs + ys| ==> (xs + ys)[i] == ys[i - |xs|];
  }

  /** Names as Split leaves them: not empty, and without a slash. */
  predicate Pieces(xs: seq<string>)
  {
    forall i :: 0 <= i < |xs| ==> xs[i] != "" && '/' !in xs[i]
  }

  lemma NamesArePieces(p: string)
    ensures Pieces(Names(p))
  {
    SplitPiecesHaveNoSlash(p);
  }

  /** Names joined with slashes begin with the first name. */
  lemma JoinSlashStart(xs: seq<string>)
    requires xs != []
    ensures HasPrefix(JoinSlash(xs), xs[0])
  {
    if |xs| > 1 {
      assert JoinSlash(xs)[..|xs[0]|] == xs[0];
    }
  }

  /** Processes names left to right on top of `stack`: "." is dropped, ".." removes the last
      name kept unless that is itself "..", and at the root of a rooted path ".." is dropped. */
  function Resolve(stack: seq<string>, names: seq<string>, rooted: bool): seq<string>
    decreases |names|
  {
    if names == [] then stack
    else if names[0] == "." then Resolve(stack, names[1..], rooted)
    else if names[0] == ".." then
      if stack != [] && stack[|stack| - 1] != ".." then Resolve(stack[..|stack| - 1], names[1..], rooted)
      else if rooted then Resolve(stack, names[1..], rooted)
      else Resolve(stack + [".."], names[1..], rooted)
    else Resolve(stack + [names[0]], names[1..], rooted)
  }

  /** Resolve keeps only names: what it is given and ".." pieces. */
  lemma {:induction false} ResolveKeepsPieces(stack: seq<string>, names: seq<string>, rooted: bool)
    requires Pieces(stack) && Pieces(names)
    ensures Pieces(Resolve(stack, names, rooted))
    decreases |names|
  {
    if names != [] {
      var next := if names[0] == "." then stack
        else if names[0] == ".." then
          if stack != [] && stack[|stack| - 1] != ".." then stack[..|stack| - 1]
          else if rooted then stack
          else stack + [".."]
        else stack + [names[0]];
      assert Pieces(next) by {
        assert forall i :: 0 <= i < |next| ==> next[i] in stack || next[i] == ".." || next[i] == names[0];
      }
      ResolveKeepsPieces(next, names[1..], rooted);
    }
  }

  /** path.Clean: the shortest equivalent path; "." for an empty result. It is never empty,
      and it is rooted exactly when the path is. */
  function Clean(p: string): (c: string)
    ensures c != ""
    ensures c[0] == '/' <==> p != "" && p[0] == '/'
  {
    if p == "" then "."
    else
      var rooted := p[0] == '/';
      var names := Resolve([], Names(p), rooted);
      NamesArePieces(p);
      ResolveKeepsPieces([], Names(p), rooted);
      var body := JoinSlash(names);
      if rooted then "/" + body
      else if body == "" then "."
      else
        JoinSlashStart(names);
        assert body[0] == names[0][0] && names[0][0] in names[0];
        body
  }

  /** path.Join: the elements from the first non-empty one on, joined with "/" and cleaned.
      It is "" exactly when every element is empty, and otherwise rooted exactly when its
      first non-empty element is: the empty elements before it are ignored. */
  function Join(elems: seq<string>): (r: string)
    ensures r == "" <==> forall i :: 0 <= i < |elems| ==> elems[i] == ""
    ensures forall i :: 0 <= i < |elems| && elems[i] != "" && (forall j :: 0 <= j < i ==> elems[j] == "") ==>
              (r[0] == '/' <==> elems[i][0] == '/')
  {
    if elems == [] then ""
    else if elems[0] == "" then
      var r := Join(elems[1..]);
      assert forall i :: 1 <= i < |elems| ==> elems[i] == elems[1..][i - 1];
      r
    else
      JoinSlashStart(elems);
      assert JoinSlash(elems)[0] == elems[0][0];
      Clean(JoinSlash(elems))
  }

  /** The rooted path whose names are `xs`. */
  function Rooted(xs: seq<string>): string
  {
    "/" + JoinSlash(xs)
  }

  /** A rooted path extended by further names: the extension follows the prefix after one
      slash (after none at the root). */
  lemma RootedCat(ps: seq<string>, xs: seq<string>)
    requires xs != []
    ensures Rooted(ps + xs) == (if ps == [] then "/" else Rooted(ps) + "/") + JoinSlash(xs)
  {
    if ps == [] {
      assert ps + xs == xs;
    } else {
      JoinSlashCat(ps, xs);
    }
  }

  lemma {:induction false} JoinSlashCat(xs: seq<string>, ys: seq<string>)
    requires xs != [] && ys != []
    ensures JoinSlash(xs + ys) == JoinSlash(xs) + "/" + JoinSlash(ys)
    decreases |xs|
  {
    if |xs| == 1 {
      assert (xs + ys)[1..] == ys;
    } else {
      assert (xs + ys)[1..] == xs[1..] + ys;
      JoinSlashCat(xs[1..], ys);
    }
  }

  /** A slash splits a path into the pieces before it and the pieces after it. */
  lemma {:induction false} SplitCat(a: string, b: string)
    ensures Split(a + "/" + b) == Split(a) + Split(b)
    decreases |a|
  {
    var p := a + "/" + b;
    if a == [] {
      assert p == "/" + b && p[1..] == b;
    } else {
      assert p[0] == a[0];
      assert p[1..] == a[1..] + "/" + b;
      SplitCat(a[1..], b);
      if a[0] != '/' {
        SplitCatName(a, b);
      }
    }
  }

  /** The step of SplitCat where the path starts with a name character. */
  lemma SplitCatName(a: string, b: string)
    requires a != [] && a[0] != '/'
    requires Split(a[1..] + "/" + b) == Split(a[1..]) + Split(b)
    ensures Split(a + "/" + b) == Split(a) + Split(b)
  {
    var p := a + "/" + b;
    assert p[0] == a[0] && p[1..] == a[1..] + "/" + b;
    SplitFirstName(a);
    SplitFirstName(p);
    ExtendFirst([a[0]], Split(a[1..]), Split(b));
  }

  /** Split of a path that starts with a name character: the character joins the first piece. */
  lemma SplitFirstName(p: string)
    requires p != [] && p[0] != '/'
    ensures Split(p) == [[p[0]] + Split(p[1..])[0]] + Split(p[1..])[1..]
  {
  }

  /** Extending the first element of `xs` commutes with appending `ys`. */
  lemma ExtendFirst<T>(c: seq<T>, xs: seq<seq<T>>, ys: seq<seq<T>>)
    requires xs != []
    ensures [c + (xs + ys)[0]] + (xs + ys)[1..] == ([c + xs[0]] + xs[1..]) + ys
  {
    assert (xs + ys)[0] == xs[0];
    assert (xs + ys)[1..] == xs[1..] + ys;
  }

  lemma {:induction false} SplitName(s: string)
    requires '/' !in s
    ensures Split(s) == [s]
    decreases |s|
  {
    if s != [] {
      assert '/' !in s[1..] by {
        assert forall c :: c in s[1..] ==> c in s;
      }
      SplitName(s[1..]);
      assert s == [s[0]] + s[1..];
    }
  }

  lemma {:induction false} NonEmptyCat(xs: seq<string>, ys: seq<string>)
    ensures NonEmpty(xs + ys) == NonEmpty(xs) + NonEmpty(ys)
    decreases |xs|
  {
    if xs != [] {
      assert (xs + ys)[1..] == xs[1..] + ys;
      NonEmptyCat(xs[1..], ys);
    } else {
      assert xs + ys == ys;
    }
  }

  /** The names on either side of a slash make up the names of the whole path. */
  lemma NamesCat(a: string, b: string)
    ensures Names(a + "/" + b) == Names(a) + Names(b)
  {
    SplitCat(a, b);
    NonEmptyCat(Split(a), Split(b));
  }

  /** Non-empty, slash-free names joined with slashes read back as the same names. */
  lemma {:induction false} NamesOfJoined(xs: seq<string>)
    requires forall i :: 0 <= i < |xs| ==> xs[i] != "" && '/' !in xs[i]
    ensures Names(JoinSlash(xs)) == xs
    decreases |xs|
  {
    if |xs| == 0 {
    } else if |xs| == 1 {
      SplitName(xs[0]);
      assert NonEmpty([xs[0]]) == [xs[0]] + NonEmpty([]);
    } else {
      SplitName(xs[0]);
      assert NonEmpty([xs[0]]) == [xs[0]] + NonEmpty([]);
      NamesOfJoined(xs[1..]);
      NamesCat(xs[0], JoinSlash(xs[1..]));
    }
  }

  lemma NamesOfRooted(xs: seq<string>)
    requires AllPlain(xs)
    ensures Names(Rooted(xs)) == xs
  {
    assert Rooted(xs) == "" + "/" + JoinSlash(xs);
    NamesCat("", JoinSlash(xs));
    NamesOfJoined(xs);
  }

  /** Plain names pass through Resolve unchanged: they are pushed onto the stack before the
      names after them are processed. */
  lemma {:induction false} ResolvePlain(stack: seq<string>, xs: seq<string>, ys: seq<string>, rooted: bool)
    requires AllPlain(xs)
    ensures Resolve(stack, xs + ys, rooted) == Resolve(stack + xs, ys, rooted)
    decreases |xs|
  {
    if xs == [] {
      assert xs + ys == ys && stack + xs == stack;
    } else {
      assert (xs + ys)[0] == xs[0] && (xs + ys)[1..] == xs[1..] + ys;
      ResolvePlain(stack + [xs[0]], xs[1..], ys, rooted);
      assert stack + [xs[0]] + xs[1..] == stack + xs;
    }
  }

  /** ".." after a plain name removes that name. */
  lemma ResolveUp(stack: seq<string>, x: string, ys: seq<string>, rooted: bool)
    requires Plain(x)
    ensures Resolve(stack + [x], [".."] + ys, rooted) == Resolve(stack, ys, rooted)
  {
    var names := [".."] + ys;
    assert names[0] == ".." && names[1..] == ys;
    assert (stack + [x])[..|stack|] == stack;
  }

  /** A rooted path whose names are all plain cleans to the canonical rooted path. */
  lemma CleanRooted(p: string, xs: seq<string>)
    requires p != "" && p[0] == '/'
    requires Names(p) == xs && AllPlain(xs)
    ensures Clean(p) == Rooted(xs)
  {
    ResolvePlain([], xs, [], true);
    assert [] + xs == xs && xs + [] == xs;
  }

  /** A relative path whose names are plain and not all absent cleans to those names joined. */
  lemma CleanRelative(p: string, xs: seq<string>)
    requires p != "" && p[0] != '/'
    requires Names(p) == xs && AllPlain(xs) && xs != []
    ensures Clean(p) == JoinSlash(xs)
  {
    ResolvePlain([], xs, [], false);
    assert [] + xs == xs && xs + [] == xs;
    assert xs[0] != "";
    assert JoinSlash(xs)[0] == xs[0][0];
  }

  /** Joining a rooted path of plain names with further plain names: path.Join(prefix, x, ...)
      is prefix + "/" + x + ... when every piece is already clean. */
  lemma JoinUnderRoot(ps: seq<string>, xs: seq<string>)
    requires AllPlain(ps) && AllPlain(xs) && xs != []
    ensures Join([Rooted(ps)] + xs) == Rooted(ps + xs)
  {
    var r := Rooted(ps);
    var elems := [r] + xs;
    assert elems[1..] == xs;
    assert JoinSlash(elems) == r + "/" + JoinSlash(xs);
    NamesCat(r, JoinSlash(xs));
    NamesOfRooted(ps);
    NamesOfJoined(xs);
    CleanRooted(JoinSlash(elems), ps + xs);
  }

  /** The same with an element that starts with a slash, as in path.Join(prefix, "/config"):
      the doubled slash is cleaned away. */
  lemma JoinUnderRootAbsolute(ps: seq<string>, x: string)
    requires AllPlain(ps) && Plain(x)
    ensures Join([Rooted(ps), "/" + x]) == Rooted(ps + [x])
  {
    var r := Rooted(ps);
    var elems := [r, "/" + x];
    assert elems[1..] == ["/" + x];
    assert JoinSlash(elems) == r + "/" + ("/" + x);
    NamesCat(r, "/" + x);
    NamesOfRooted(ps);
    NamesOfRooted([x]);
    assert Rooted([x]) == "/" + x;
    CleanRooted(JoinSlash(elems), ps + [x]);
  }

  /** With an empty first element Join skips it: path.Join("", x, ...) is relative. */
  lemma JoinRelative(xs: seq<string>)
    requires AllPlain(xs) && xs != []
    ensures Join([""] + xs) == JoinSlash(xs)
  {
    assert ([""] + xs)[1..] == xs;
    assert xs[0] != "";
    assert JoinSlash(xs)[0] == xs[0][0];
    NamesOfJoined(xs);
    CleanRelative(JoinSlash(xs), xs);
  }
}
