/** Host paths as the program compares them: by their components, not by their text. */
module Paths {
  import opened Text

  /** The text between slashes. */
  function Pieces(path: string): (ps: seq<string>)
    ensures ps != []
    decreases |path|
  {
    if '/' !in path then [path] else [Before(path, '/')] + Pieces(After(path, '/'))
  }

  /** Repeated slashes and single dots separate nothing. */
  function Names(pieces: seq<string>): seq<string> {
    if pieces == [] then []
    else (if pieces[0] == "" || pieces[0] == "." then [] else [pieces[0]]) + Names(pieces[1..])
  }

  /** The root is a component of an absolute path, and a leading dot one of a relative path. */
  function Components(path: string): seq<string> {
    if path == "" then [] else Lead(Pieces(path)[0]) + Names(Pieces(path))
  }

  function Lead(piece: string): seq<string> {
    if piece == "" then ["/"] else if piece == "." then ["."] else []
  }

  predicate SamePath(a: string, b: string) {
    Components(a) == Components(b)
  }

  lemma {:induction false} NamesAppend(a: seq<string>, b: seq<string>)
    ensures Names(a + b) == Names(a) + Names(b)
  {
    if a == [] {
      assert a + b == b;
    } else {
      assert (a + b)[1..] == a[1..] + b;
      NamesAppend(a[1..], b);
    }
  }

  lemma FirstPiece(a: string, b: string)
    requires '/' !in a
    ensures Pieces(a + ['/'] + b) == [a] + Pieces(b)
  {
    Splits(a, '/', b);
    assert (a + ['/'] + b)[|a|] == '/';
    hide Before;
  }

  lemma PiecesOf(a: string)
    requires '/' in a
    ensures var x, y := Before(a, '/'), After(a, '/');
            a == x + ['/'] + y && '/' !in x && |y| < |a| && Pieces(a) == [x] + Pieces(y)
  {
    Unsplits(a, '/');
  }

  lemma {:induction false} PiecesJoin(a: string, b: string)
    ensures Pieces(a + ['/'] + b) == Pieces(a) + Pieces(b)
    decreases |a|
  {
    hide Pieces, Before, After;
    if '/' !in a {
      FirstPiece(a, b);
      OnePiece(a);
    } else {
      var x, y := Before(a, '/'), After(a, '/');
      PiecesOf(a);
      PiecesJoin(y, b);
      Regroup(x, y, b);
      FirstPiece(x, y + ['/'] + b);
    }
  }

  lemma OnePiece(a: string)
    requires '/' !in a
    ensures Pieces(a) == [a]
  {
  }

  lemma Regroup(x: string, y: string, b: string)
    ensures (x + ['/'] + y) + ['/'] + b == x + ['/'] + (y + ['/'] + b)
  {
  }

  /** The components of a path and of what follows it after a slash. */
  lemma Join(a: string, b: string)
    requires a != ""
    ensures Components(a + ['/'] + b) == Components(a) + Names(Pieces(b))
  {
    PiecesJoin(a, b);
    NamesAppend(Pieces(a), Pieces(b));
    hide Pieces, Names;
    assert (Pieces(a) + Pieces(b))[0] == Pieces(a)[0];
    assert a + ['/'] + b != "";
  }

  lemma JoinRoot(b: string)
    ensures Components(['/'] + b) == ["/"] + Names(Pieces(b))
  {
    var path := ['/'] + b;
    assert "" + ['/'] + b == path;
    PiecesJoin("", b);
    NamesOfNothing();
    NamesAppend([""], Pieces(b));
    hide Pieces, Names;
    assert Pieces(path)[0] == "";
  }

  lemma NamesOfNothing()
    ensures Pieces("") == [""] && Names([""]) == []
  {
    assert [""][1..] == [];
  }

  /** A slash at the end changes the text of a path and not the path. */
  lemma TrailingSlash(path: string)
    requires path != ""
    ensures SamePath(path + "/", path) && path + "/" != path
  {
    assert path + "/" == path + ['/'] + "";
    Join(path, "");
    NamesOfNothing();
    hide Components, Pieces, Names;
    assert Components(path) + [] == Components(path);
    assert |path + "/"| == |path| + 1;
  }

  lemma {:induction false} TrimmedEnd(a: string)
    requires a != ""
    ensures Components(a) == if TrimEnd(a, '/') == "" then ["/"] else Components(TrimEnd(a, '/'))
  {
    if a[|a| - 1] == '/' {
      var x := a[..|a| - 1];
      assert a == x + "/" == x + ['/'];
      if x == "" {
        JoinRoot("");
        assert a == ['/'] + "";
        NamesOfNothing();
        assert TrimEnd("", '/') == "";
      } else {
        TrailingSlash(x);
        TrimmedEnd(x);
      }
    }
  }

  lemma {:induction false} TrimmedStart(b: string)
    ensures Names(Pieces(TrimStart(b, '/'))) == Names(Pieces(b))
  {
    if b != "" && b[0] == '/' {
      var y := b[1..];
      assert b == "" + ['/'] + y;
      PiecesJoin("", y);
      NamesOfNothing();
      NamesAppend([""], Pieces(y));
      assert [] + Names(Pieces(y)) == Names(Pieces(y));
      TrimmedStart(y);
    }
  }

  /** Slashes on either side of a slash do not matter. */
  lemma SeamIsSame(a: string, b: string)
    requires a != ""
    ensures SamePath(TrimEnd(a, '/') + ['/'] + TrimStart(b, '/'), a + ['/'] + b)
  {
    var x, y := TrimEnd(a, '/'), TrimStart(b, '/');
    TrimmedEnd(a);
    TrimmedStart(b);
    SameSeam(a, b, x, y);
  }

  lemma SameSeam(a: string, b: string, x: string, y: string)
    requires a != "" && Components(a) == (if x == "" then ["/"] else Components(x))
    requires Names(Pieces(y)) == Names(Pieces(b))
    ensures SamePath(x + ['/'] + y, a + ['/'] + b)
  {
    hide Components, Pieces, Names;
    Join(a, b);
    if x == "" {
      assert x + ['/'] + y == ['/'] + y;
      JoinRoot(y);
    } else {
      Join(x, y);
    }
  }

  predicate Name(name: string) {
    name != "" && name != "." && '/' !in name
  }

  /** Names directly under the root. */
  lemma RootedName(name: string)
    requires Name(name)
    ensures Components(['/'] + name) == ["/", name]
  {
    JoinRoot(name);
    assert Pieces(name) == [name] && [name][1..] == [];
    assert Names([name]) == [name] + Names([]);
  }

  lemma RootedNamesDiffer(a: string, b: string)
    requires Name(a) && Name(b) && a != b
    ensures !SamePath(['/'] + a, ['/'] + b)
  {
    RootedName(a);
    RootedName(b);
    hide Components;
    assert ["/", a][1] == a && ["/", b][1] == b;
  }

  lemma DeeperDiffers(a: string, b: string, c: string)
    requires Name(a) && Name(b) && Name(c)
    ensures !SamePath(['/'] + a + ['/'] + b, ['/'] + c)
  {
    RootedName(a);
    RootedName(c);
    Join(['/'] + a, b);
    assert Pieces(b) == [b] && [b][1..] == [];
    assert Names([b]) == [b] + Names([]);
    hide Components, Pieces, Names;
    assert |["/", a] + [b]| == 3;
  }

  /** Inside a path a slash more, or a dot between slashes, changes nothing. */
  lemma EmptySteps(a: string, b: string)
    requires a != ""
    ensures SamePath(a + "//" + b, a + "/" + b) && SamePath(a + "/./" + b, a + "/" + b)
  {
    assert a + "//" + b == a + ['/'] + ("" + ['/'] + b);
    assert a + "/./" + b == a + ['/'] + ("." + ['/'] + b);
    Join(a, "" + ['/'] + b);
    Join(a, "." + ['/'] + b);
    Join(a, b);
    FirstPiece("", b);
    FirstPiece(".", b);
    hide Components, Pieces;
    Steps(Pieces(b));
  }

  lemma Steps(ps: seq<string>)
    ensures Names([""] + ps) == Names(ps) && Names(["."] + ps) == Names(ps)
    ensures Names([".."] + ps) == [".."] + Names(ps)
  {
    assert ([""] + ps)[1..] == ps && (["."] + ps)[1..] == ps && ([".."] + ps)[1..] == ps;
  }

  lemma UpText(a: string, b: string)
    ensures a + "/../" + b == a + ['/'] + (".." + ['/'] + b)
  {
  }

  /** Two dots are a component like any other: nothing is resolved. */
  lemma UpIsKept(a: string, b: string)
    requires a != ""
    ensures Components(a + "/../" + b) == Components(a) + [".."] + Names(Pieces(b))
    ensures !SamePath(a + "/../" + b, a + "/" + b)
  {
    UpText(a, b);
    Join(a, ".." + ['/'] + b);
    Join(a, b);
    FirstPiece("..", b);
    hide Components, Pieces, Names;
    Steps(Pieces(b));
    assert a + "/" + b == a + ['/'] + b;
    OneMore(Components(a), "..", Names(Pieces(b)));
  }

  lemma OneMore(a: seq<string>, x: string, b: seq<string>)
    ensures a + ([x] + b) == a + [x] + b != a + b
  {
    assert |a + [x] + b| == |a + b| + 1;
  }
}
