/** The URL table: `^images` selects the list view, `^image/(?P<file_name>[A-Za-z_0-9.]+)$` the
    single-image view. Patterns are tried in order with a regular-expression search anchored at
    the start; Python's `$` matches at the end or just before one final newline. */
module Urls {
  import opened Common

  /** The view a path is dispatched to. */
  datatype Route = ImageListView | ImageView(fileName: string) | NoRoute

  /** A character of the class `[A-Za-z_0-9.]`. */
  predicate IsNameChar(c: char)
  {
    'A' <= c <= 'Z' || 'a' <= c <= 'z' || c == '_' || '0' <= c <= '9' || c == '.'
  }

  /** A file name the second pattern can capture: one or more characters of the class. */
  predicate IsRoutableName(n: string)
  {
    n != [] && forall i :: 0 <= i < |n| ==> IsNameChar(n[i])
  }

  /** `^images`: the path starts with `images`; nothing is required after it. */
  predicate MatchesImageList(path: string)
  {
    "images" <= path
  }

  /** Length of the longest run of name characters at the start of `s` (the greedy `+`). */
  function NameSpan(s: string): (k: nat)
    ensures k <= |s|
    ensures forall i :: 0 <= i < k ==> IsNameChar(s[i])
    ensures k < |s| ==> !IsNameChar(s[k])
  {
    if s == [] || !IsNameChar(s[0]) then 0 else 1 + NameSpan(s[1..])
  }

  /** `^image/(?P<file_name>[A-Za-z_0-9.]+)$`: the captured name, if the path matches. */
  function MatchImage(path: string): Option<string>
  {
    if !("image/" <= path) then None
    else
      var rest := path[6..];
      var k := NameSpan(rest);
      if k > 0 && (k == |rest| || (k == |rest| - 1 && rest[k] == '\n')) then Some(rest[..k]) else None
  }

  /** The first pattern that matches decides the view. */
  function Resolve(path: string): (r: Route)
    ensures r == ImageListView <==> MatchesImageList(path)
  {
    if MatchesImageList(path) then ImageListView
    else match MatchImage(path)
      case Some(n) => ImageView(n)
      case None => NoRoute
  }

  /** The two patterns never both match: their sixth characters are `s` and `/`. */
  lemma PatternsDisjoint(path: string)
    ensures !(MatchesImageList(path) && MatchImage(path).Some?)
  {
    if MatchesImageList(path) {
      assert path[5] == 's';
    }
  }

  /** A path reaches the single-image view with `file_name = n` exactly when it is `image/` followed
      by a non-empty run of `[A-Za-z_0-9.]`, optionally followed by one newline. */
  lemma ResolveImageView(path: string, n: string)
    ensures Resolve(path) == ImageView(n) <==>
              IsRoutableName(n) && (path == "image/" + n || path == "image/" + n + "\n")
  {
    if IsRoutableName(n) && (path == "image/" + n || path == "image/" + n + "\n") {
      NameRouted(path, n);
    }
    if Resolve(path) == ImageView(n) {
      RoutedName(path, n);
    }
  }

  /** `image/n`, with or without one trailing newline, reaches the single-image view with `n`. */
  lemma NameRouted(path: string, n: string)
    requires IsRoutableName(n) && (path == "image/" + n || path == "image/" + n + "\n")
    ensures Resolve(path) == ImageView(n)
  {
    var rest := path[6..];
    assert rest == n || rest == n + "\n";
    NameSpanOfName(n, rest);
    assert !MatchesImageList(path) by {
      assert path[5] == '/';
    }
  }

  /** Whatever reaches the single-image view is `image/` and the name, with at most one newline after. */
  lemma RoutedName(path: string, n: string)
    requires Resolve(path) == ImageView(n)
    ensures IsRoutableName(n) && (path == "image/" + n || path == "image/" + n + "\n")
  {
    var rest := path[6..];
    var k := NameSpan(rest);
    assert n == rest[..k];
    assert path == "image/" + rest;
    if k == |rest| {
      assert rest == n;
    } else {
      assert rest == n + "\n";
    }
  }

  /** The greedy run over a name, possibly followed by a newline, stops exactly at the name's end. */
  lemma {:induction false} NameSpanOfName(n: string, rest: string)
    requires IsRoutableName(n) && (rest == n || rest == n + "\n")
    ensures NameSpan(rest) == |n|
  {
    assert forall i :: 0 <= i < |n| ==> rest[i] == n[i];
    assert |rest| > |n| ==> rest[|n|] == '\n';
  }

  /** Paths the list pattern takes: it only asks for the prefix. */
  lemma ImageListExamples()
    ensures Resolve("images") == ImageListView
    ensures Resolve("images/x") == ImageListView
    ensures Resolve("imagesfoo") == ImageListView
  {
  }

  /** `$` lets one trailing newline through: the captured name leaves it out. */
  lemma TrailingNewlineRouted()
    ensures Resolve("image/cat.png\n") == ImageView("cat.png")
  {
    assert IsRoutableName("cat.png");
    assert "image/cat.png\n" == "image/" + "cat.png" + "\n";
    NameRouted("image/cat.png\n", "cat.png");
  }

  /** `.` is in the class, so `..` is a file name the single-image view receives. */
  lemma ParentNameRouted()
    ensures Resolve("image/..") == ImageView("..")
  {
    assert IsRoutableName("..");
    assert "image/.." == "image/" + "..";
    NameRouted("image/..", "..");
  }

  /** A `/` is not in the class: a sub-path never reaches the single-image view. */
  lemma SubPathRefused()
    ensures Resolve("image/dir/cat.png") == NoRoute
  {
    RefusedName("image/dir/cat.png", "dir/cat.png");
  }

  /** The capture needs at least one character. */
  lemma EmptyNameRefused()
    ensures Resolve("image/") == NoRoute
  {
    RefusedName("image/", "");
  }

  /** `image/` followed by text that is not a name, optionally newline-terminated, has no view. */
  lemma RefusedName(path: string, rest: string)
    requires path == "image/" + rest
    requires NameSpan(rest) == 0 || NameSpan(rest) + 1 < |rest| ||
             (NameSpan(rest) + 1 == |rest| && rest[|rest| - 1] != '\n')
    ensures Resolve(path) == NoRoute
  {
    assert path[5] == '/';
    assert path[6..] == rest;
  }
}
