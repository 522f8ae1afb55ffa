/**
 Models of the PHP string built-ins the combo server relies on: `implode`,
 `explode`, `array_filter` on a list of strings, `dirname`, `basename` and
 `substr_count` with a one-character needle. Strings are sequences of
 characters; PHP's locale-dependent multibyte handling in `basename` is not
 modelled (every character counts as one unit).
 */
module PhpStrings {

  /* ---------------------------------------------------------------------- */
  /* implode / explode                                                        */
  /* ---------------------------------------------------------------------- */

  /** `implode(sep, parts)`: the parts with one separator between neighbours. */
  function Implode(sep: char, parts: seq<string>): string
  {
    if |parts| == 0 then ""
    else if |parts| == 1 then parts[0]
    else parts[0] + [sep] + Implode(sep, parts[1..])
  }

  /** `explode(sep, s)` for a one-character separator: the separator-free
      segments of `s`, in order, empty segments included. It never returns
      an empty list (`explode` of "" is [""]), and joining the segments back
      gives `s` again. */
  function Explode(sep: char, s: string): (parts: seq<string>)
    ensures |parts| >= 1
    ensures forall i :: 0 <= i < |parts| ==> sep !in parts[i]
    ensures Implode(sep, parts) == s
    decreases |s|
  {
    if |s| == 0 then [""]
    else
      var rest := Explode(sep, s[1..]);
      if s[0] == sep then
        var parts := [""] + rest;
        assert parts[1..] == rest;
        assert s == [sep] + s[1..];
        parts
      else
        var parts := [[s[0]] + rest[0]] + rest[1..];
        assert s == [s[0]] + s[1..];
        assert |rest| >= 2 ==> parts[1..] == rest[1..];
        parts
  }

  /** Exploding a separator-free string gives that string alone. */
  lemma {:induction false} ExplodeSingle(sep: char, x: string)
    requires sep !in x
    ensures Explode(sep, x) == [x]
    decreases |x|
  {
    if |x| > 0 {
      ExplodeSingle(sep, x[1..]);
      assert [x[0]] + x[1..] == x;
    }
  }

  /** A separator-free prefix followed by a separator becomes the first segment. */
  lemma {:induction false} ExplodeCons(sep: char, x: string, y: string)
    requires sep !in x
    ensures Explode(sep, x + [sep] + y) == [x] + Explode(sep, y)
    decreases |x|
  {
    var s := x + [sep] + y;
    if |x| == 0 {
      assert s[1..] == y;
    } else {
      assert s[1..] == x[1..] + [sep] + y;
      ExplodeCons(sep, x[1..], y);
      assert [x[0]] + x[1..] == x;
    }
  }

  /** `explode` undoes `implode` for a non-empty list of separator-free parts. */
  lemma {:induction false} ExplodeImplode(sep: char, parts: seq<string>)
    requires |parts| >= 1
    requires forall i :: 0 <= i < |parts| ==> sep !in parts[i]
    ensures Explode(sep, Implode(sep, parts)) == parts
    decreases |parts|
  {
    if |parts| == 1 {
      ExplodeSingle(sep, parts[0]);
    } else {
      ExplodeCons(sep, parts[0], Implode(sep, parts[1..]));
      ExplodeImplode(sep, parts[1..]);
      assert [parts[0]] + parts[1..] == parts;
    }
  }

  /* ---------------------------------------------------------------------- */
  /* array_filter                                                             */
  /* ---------------------------------------------------------------------- */

  /** PHP truthiness of a string: only "" and "0" are falsy. */
  predicate Falsy(s: string)
  {
    s == "" || s == "0"
  }

  /** `array_filter(xs)` without a callback on a list of strings: drops the
      falsy entries and keeps the others in their original order. */
  function ArrayFilter(xs: seq<string>): (r: seq<string>)
    ensures |r| <= |xs|
    ensures forall x :: x in r <==> x in xs && !Falsy(x)
  {
    if |xs| == 0 then []
    else
      var rest := ArrayFilter(xs[1..]);
      assert xs == [xs[0]] + xs[1..];
      if Falsy(xs[0]) then rest else [xs[0]] + rest
  }

  /** Filtering distributes over concatenation, so the relative order of the
      kept entries is the order of the input. */
  lemma {:induction false} ArrayFilterAppend(a: seq<string>, b: seq<string>)
    ensures ArrayFilter(a + b) == ArrayFilter(a) + ArrayFilter(b)
    decreases |a|
  {
    if |a| > 0 {
      assert (a + b)[0] == a[0];
      assert (a + b)[1..] == a[1..] + b;
      ArrayFilterAppend(a[1..], b);
      if !Falsy(a[0]) {
        assert [a[0]] + ArrayFilter(a[1..]) + ArrayFilter(b) == [a[0]] + (ArrayFilter(a[1..]) + ArrayFilter(b));
      }
    } else {
      assert a + b == b;
    }
  }

  /** A list with no falsy entry passes through `array_filter` unchanged. */
  lemma {:induction false} ArrayFilterKeepsTruthy(xs: seq<string>)
    requires forall i :: 0 <= i < |xs| ==> !Falsy(xs[i])
    ensures ArrayFilter(xs) == xs
    decreases |xs|
  {
    if |xs| > 0 {
      ArrayFilterKeepsTruthy(xs[1..]);
      assert [xs[0]] + xs[1..] == xs;
    }
  }

  /* ---------------------------------------------------------------------- */
  /* dirname / basename                                                       */
  /* ---------------------------------------------------------------------- */

  /** `s` without its trailing run of slashes. */
  function TrimTrailingSlashes(s: string): (r: string)
    ensures r <= s
    ensures r == "" || r[|r| - 1] != '/'
  {
    if |s| > 0 && s[|s| - 1] == '/' then TrimTrailingSlashes(s[..|s| - 1]) else s
  }

  /** What trimming removes is slashes only. */
  lemma {:induction false} TrimmedSlashesOnly(s: string)
    ensures forall i :: |TrimTrailingSlashes(s)| <= i < |s| ==> s[i] == '/'
    decreases |s|
  {
    if |s| > 0 && s[|s| - 1] == '/' {
      TrimmedSlashesOnly(s[..|s| - 1]);
      assert forall i :: 0 <= i < |s| - 1 ==> s[..|s| - 1][i] == s[i];
    }
  }

  /** The characters after the last slash of `s` (all of `s` when it has none). */
  function LastComponent(s: string): (name: string)
    ensures '/' !in name
    ensures |name| <= |s|
  {
    if |s| == 0 || s[|s| - 1] == '/' then ""
    else LastComponent(s[..|s| - 1]) + [s[|s| - 1]]
  }

  /** `s` up to and including its last slash ("" when it has none). */
  function DropLastComponent(s: string): (prefix: string)
    ensures prefix == "" || prefix[|prefix| - 1] == '/'
  {
    if |s| == 0 || s[|s| - 1] == '/' then s
    else DropLastComponent(s[..|s| - 1])
  }

  /** PHP's `dirname(path)` on a Unix system (one level): trailing slashes are
      ignored, a path without a slash gives ".", the slashes in front of the
      last component are dropped, and a path that only has slashes there
      gives "/". The empty path gives the empty string. */
  function Dirname(path: string): string
  {
    if path == "" then ""
    else
      var t := TrimTrailingSlashes(path);
      if t == "" then "/"
      else
        var p := DropLastComponent(t);
        if p == "" then "."
        else
          var u := TrimTrailingSlashes(p);
          if u == "" then "/" else u
  }

  /** PHP's `basename(path)` without a suffix: the last non-empty component
      of the path, or "" when the path has none. */
  function Basename(path: string): (name: string)
    ensures '/' !in name
  {
    LastComponent(TrimTrailingSlashes(path))
  }

  lemma {:induction false} BareComponents(s: string)
    requires '/' !in s
    ensures LastComponent(s) == s
    ensures DropLastComponent(s) == ""
    decreases |s|
  {
    if |s| > 0 {
      assert s[|s| - 1] in s;
      assert '/' !in s[..|s| - 1];
      BareComponents(s[..|s| - 1]);
      assert s[..|s| - 1] + [s[|s| - 1]] == s;
    }
  }

  /** A name with no slash at all lives in directory "." and is its own base name. */
  lemma BareName(s: string)
    requires s != "" && '/' !in s
    ensures Dirname(s) == "."
    ensures Basename(s) == s
  {
    assert s[|s| - 1] in s;
    BareComponents(s);
  }

  lemma {:induction false} JoinedComponents(d: string, n: string)
    requires '/' !in n
    ensures LastComponent(d + "/" + n) == n
    ensures DropLastComponent(d + "/" + n) == d + "/"
    decreases |n|
  {
    var s := d + "/" + n;
    if |n| == 0 {
      assert s == d + "/";
    } else {
      assert s[|s| - 1] == n[|n| - 1];
      assert n[|n| - 1] in n;
      assert s[..|s| - 1] == d + "/" + n[..|n| - 1];
      assert forall x :: x in n[..|n| - 1] ==> x in n;
      JoinedComponents(d, n[..|n| - 1]);
      assert n[..|n| - 1] + [n[|n| - 1]] == n;
    }
  }

  /** `dirname` and `basename` undo the join `d + "/" + n` when the directory
      part does not end in a slash and the name is a non-empty component. */
  lemma DirnameBasenameJoin(d: string, n: string)
    requires d != "" && d[|d| - 1] != '/'
    requires n != "" && '/' !in n
    ensures Dirname(d + "/" + n) == d
    ensures Basename(d + "/" + n) == n
  {
    var s := d + "/" + n;
    assert s[|s| - 1] == n[|n| - 1];
    assert n[|n| - 1] in n;
    assert TrimTrailingSlashes(s) == s;
    JoinedComponents(d, n);
    assert (d + "/")[..|d|] == d;
    assert TrimTrailingSlashes(d + "/") == TrimTrailingSlashes(d) == d;
  }

  /* ---------------------------------------------------------------------- */
  /* substr_count                                                             */
  /* ---------------------------------------------------------------------- */

  /** `substr_count(s, ".")`: the number of dots in `s`. */
  function DotCount(s: string): (n: nat)
    ensures n <= |s|
  {
    if |s| == 0 then 0 else (if s[0] == '.' then 1 else 0) + DotCount(s[1..])
  }

  /** The dot count is the number of times '.' occurs in `s`. */
  lemma {:induction false} DotCountIsMultiplicity(s: string)
    ensures DotCount(s) == multiset(s)['.']
    decreases |s|
  {
    if |s| > 0 {
      DotCountIsMultiplicity(s[1..]);
      assert s == [s[0]] + s[1..];
    }
  }
}
