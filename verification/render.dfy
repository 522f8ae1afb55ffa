/**
 Rendering a validated combo: the headers `render` sends and the response
 body it streams. `readfile` is modelled by a map from paths to file
 contents; a path the map does not hold (a directory, an unreadable file)
 contributes no bytes. The clock and the `gmdate` formatting of the
 `Expires` date are parameters.
 */
module ComboRender {
  import opened YuiCombo

  newtype byte = x: int | 0 <= x < 256

  /** Ten years, in seconds: the far-future cache lifetime. */
  const MaxAge: int := 315360000

  const CacheControlHeader: string := "Cache-Control: max-age=315360000"
  const ContentTypeHeader: string := "Content-Type: application/x-javascript"

  /** The `Expires` header for a request served at time `now`, where
      `httpDate` stands for the `gmdate('D, j M Y H:i:s', …)` formatting. */
  function ExpiresHeader(now: int, httpDate: int -> string): string
  {
    "Expires: " + httpDate(now + MaxAge) + " GMT"
  }

  /** What `readfile` writes for a path. */
  function ReadFile(contents: map<string, seq<byte>>, path: string): seq<byte>
  {
    if path in contents then contents[path] else []
  }

  /** The files' bytes, one after the other, with nothing in between. */
  function Body(contents: map<string, seq<byte>>, paths: seq<string>): seq<byte>
  {
    if |paths| == 0 then [] else ReadFile(contents, paths[0]) + Body(contents, paths[1..])
  }

  /** The headers `render` sends, in order: the two cache headers exactly
      when caching was enabled, and the JavaScript content type always, last. */
  function RenderHeaders(c: Combo, now: int, httpDate: int -> string): (headers: seq<string>)
    ensures |headers| == if c.enableCache then 3 else 1
    ensures headers[|headers| - 1] == ContentTypeHeader
    ensures CacheControlHeader in headers <==> c.enableCache
    ensures ExpiresHeader(now, httpDate) in headers <==> c.enableCache
    ensures c.enableCache ==> headers[0] == CacheControlHeader && headers[1] == ExpiresHeader(now, httpDate)
  {
    var expires := ExpiresHeader(now, httpDate);
    assert expires[0] == 'E';
    assert ContentTypeHeader[1] != CacheControlHeader[1];
    (if c.enableCache then [CacheControlHeader, expires] else []) + [ContentTypeHeader]
  }

  datatype Response = Response(headers: seq<string>, body: seq<byte>)

  /** `render`: send the headers, then stream every accepted file in order. */
  method Render(c: Combo, contents: map<string, seq<byte>>, now: int, httpDate: int -> string)
    returns (r: Response)
    ensures r.headers == RenderHeaders(c, now, httpDate)
    ensures r.body == Body(contents, c.scripts)
  {
    var body: seq<byte> := [];
    var i := 0;
    while i < |c.scripts|
      invariant 0 <= i <= |c.scripts|
      invariant body == Body(contents, c.scripts[..i])
    {
      BodyAppend(contents, c.scripts[..i], [c.scripts[i]]);
      assert c.scripts[..i + 1] == c.scripts[..i] + [c.scripts[i]];
      assert [c.scripts[i]][1..] == [];
      body := body + ReadFile(contents, c.scripts[i]);
      i := i + 1;
    }
    assert c.scripts[..i] == c.scripts;
    r := Response(RenderHeaders(c, now, httpDate), body);
  }

  /** The body of a list of files is the body of its parts, one after the other. */
  lemma {:induction false} BodyAppend(contents: map<string, seq<byte>>, a: seq<string>, b: seq<string>)
    ensures Body(contents, a + b) == Body(contents, a) + Body(contents, b)
    decreases |a|
  {
    if |a| == 0 {
      assert a + b == b;
    } else {
      assert (a + b)[0] == a[0];
      assert (a + b)[1..] == a[1..] + b;
      BodyAppend(contents, a[1..], b);
    }
  }

  /** Every file's bytes appear in the body unchanged, right after the bytes
      of the files before it: no separators, no reordering. */
  lemma BodyLayout(contents: map<string, seq<byte>>, paths: seq<string>, i: int)
    requires 0 <= i < |paths|
    ensures var start := |Body(contents, paths[..i])|;
      var file := ReadFile(contents, paths[i]);
      && start + |file| <= |Body(contents, paths)|
      && Body(contents, paths)[start..start + |file|] == file
  {
    assert paths == paths[..i] + ([paths[i]] + paths[i + 1..]);
    BodyAppend(contents, paths[..i], [paths[i]] + paths[i + 1..]);
    assert ([paths[i]] + paths[i + 1..])[1..] == paths[i + 1..];
  }
}
