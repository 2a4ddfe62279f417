/** The URL paths of the cache client (cache.go) and what a server reads back from them.
    A character stands for one byte. */
module CachePath {
  import opened Options
  import opened Strings

  const PREFIX: string := "/apps/cache/api/caches/"

  predicate Bytes(s: string) {
    forall i | 0 <= i < |s| :: s[i] as int < 256
  }

  predicate AllBytes(parts: seq<string>) {
    forall p | p in parts :: Bytes(p)
  }

  // ----- Percent-encoding of one path segment -----

  /** The bytes a path segment may hold as they are. */
  predicate Kept(c: char) {
    'a' <= c <= 'z' || 'A' <= c <= 'Z' || '0' <= c <= '9' || c in "-_.~$&+=:@"
  }

  function Hex(n: nat): char
    requires n < 16
  {
    "0123456789ABCDEF"[n]
  }

  function Unhex(c: char): Option<nat> {
    if '0' <= c <= '9' then Some(c as int - '0' as int)
    else if 'A' <= c <= 'F' then Some(c as int - 'A' as int + 10)
    else if 'a' <= c <= 'f' then Some(c as int - 'a' as int + 10)
    else None
  }

  function Escape(c: char): string
    requires c as int < 256
  {
    if Kept(c) then [c] else ['%', Hex(c as int / 16), Hex(c as int % 16)]
  }

  function PathEscape(s: string): string
    requires Bytes(s)
  {
    if s == "" then "" else Escape(s[0]) + PathEscape(s[1..])
  }

  // ----- The client's paths -----

  function EscapeAll(parts: seq<string>): seq<string>
    requires AllBytes(parts)
  {
    seq(|parts|, i requires 0 <= i < |parts| => PathEscape(parts[i]))
  }

  function PathOf(name: string, segments: seq<string>): string
    requires Bytes(name) && AllBytes(segments)
  {
    PREFIX + Join(EscapeAll([name] + segments), "/")
  }

  method Path(name: string, segments: seq<string>) returns (b: string)
    requires Bytes(name) && AllBytes(segments)
    ensures b == PathOf(name, segments)
  {
    hide PathEscape, Bytes, Join;
    ghost var parts := [name] + segments;
    PathStarts(name);
    b := PREFIX;
    b := b + PathEscape(name);
    for i := 0 to |segments|
      invariant b == PathOf(name, segments[..i])
    {
      PathGrows(name, segments, i);
      b := b + "/";
      b := b + PathEscape(segments[i]);
    }
    assert segments[..|segments|] == segments;
  }

  lemma PathStarts(name: string)
    requires Bytes(name)
    ensures PathOf(name, []) == PREFIX + PathEscape(name)
  {
    assert EscapeAll([name] + []) == [PathEscape(name)];
  }

  lemma PathGrows(name: string, segments: seq<string>, i: nat)
    requires Bytes(name) && AllBytes(segments) && i < |segments|
    ensures PathOf(name, segments[..i + 1]) == PathOf(name, segments[..i]) + "/" + PathEscape(segments[i])
  {
    hide PathEscape, Bytes, Join;
    var front := EscapeAll([name] + segments[..i]);
    assert EscapeAll([name] + segments[..i + 1]) == front + [PathEscape(segments[i])];
    JoinAppend(front, PathEscape(segments[i]), "/");
  }

  method PubSubPath(name: string, channel: string, segments: seq<string>) returns (b: string)
    requires Bytes(name) && Bytes(channel) && AllBytes(segments)
    ensures b == PathOf(name, ["pubsub", channel] + segments)
  {
    b := Path(name, ["pubsub", channel] + segments);
  }

  method HashPath(name: string, hash: string, segments: seq<string>) returns (b: string)
    requires Bytes(name) && Bytes(hash) && AllBytes(segments)
    ensures b == PathOf(name, ["hashes", hash] + segments)
  {
    b := Path(name, ["hashes", hash] + segments);
  }

  // ----- Reading a request target back -----

  /** Percent-decoding, section 2.1 of RFC 3986. */
  function Unescape(s: string): Option<string> {
    if s == "" then Some("")
    else if s[0] == '%' then
      if |s| < 3 || Unhex(s[1]).None? || Unhex(s[2]).None? then None
      else Prepend((16 * Unhex(s[1]).value + Unhex(s[2]).value) as char, Unescape(s[3..]))
    else Prepend(s[0], Unescape(s[1..]))
  }

  function Prepend(c: char, rest: Option<string>): Option<string> {
    if rest.None? then None else Some([c] + rest.value)
  }

  function UnescapeAll(parts: seq<string>): Option<seq<string>> {
    if parts == [] then Some([])
    else
      var first, rest := Unescape(parts[0]), UnescapeAll(parts[1..]);
      if first.None? || rest.None? then None else Some([first.value] + rest.value)
  }

  /** What ends a path: a query or a fragment behind it. */
  predicate EndsPath(c: char) { c == '?' || c == '#' }

  /** The part of a request target before the query and the fragment. */
  function BeforeQuery(target: string): string {
    if target == "" || EndsPath(target[0]) then "" else [target[0]] + BeforeQuery(target[1..])
  }

  /** The cache's name and the segments a target asks for: what stands between
      slashes, section 3.3 of RFC 3986, decoded. */
  function Parse(target: string): Option<seq<string>> {
    var path := BeforeQuery(target);
    if PREFIX <= path then UnescapeAll(SplitOn(path[|PREFIX|..], '/')) else None
  }

  // ----- The round trip -----

  lemma EscapeIsRead(c: char, rest: string)
    requires c as int < 256
    ensures Unescape(Escape(c) + rest) == Prepend(c, Unescape(rest))
  {
    var s := Escape(c) + rest;
    if Kept(c) {
      assert s[1..] == rest;
    } else {
      UnhexHex(c as int / 16);
      UnhexHex(c as int % 16);
      assert s[3..] == rest;
    }
  }

  lemma UnhexHex(n: nat)
    requires n < 16
    ensures Unhex(Hex(n)) == Some(n)
  {
  }

  lemma {:induction false} UnescapeEscape(s: string)
    requires Bytes(s)
    ensures Unescape(PathEscape(s)) == Some(s)
  {
    if s != "" {
      EscapeIsRead(s[0], PathEscape(s[1..]));
      UnescapeEscape(s[1..]);
      assert [s[0]] + s[1..] == s;
    }
  }

  /** No byte that ends a segment or the path. */
  predicate Plain(s: string) {
    '/' !in s && forall c | c in s :: !EndsPath(c)
  }

  lemma EscapeIsPlain(c: char)
    requires c as int < 256
    ensures Plain(Escape(c))
  {
    HexIsPlain(c as int / 16);
    HexIsPlain(c as int % 16);
  }

  lemma HexIsPlain(n: nat)
    requires n < 16
    ensures Hex(n) != '/' && !EndsPath(Hex(n))
  {
  }

  lemma {:induction false} EscapedIsPlain(s: string)
    requires Bytes(s)
    ensures Plain(PathEscape(s))
  {
    if s != "" {
      EscapedIsPlain(s[1..]);
      EscapeIsPlain(s[0]);
    }
  }

  lemma AllPlain(parts: seq<string>)
    requires AllBytes(parts)
    ensures forall p | p in EscapeAll(parts) :: Plain(p)
  {
    forall i | 0 <= i < |parts|
      ensures Plain(EscapeAll(parts)[i])
    {
      EscapedIsPlain(parts[i]);
    }
  }

  lemma {:induction false} UnescapeEscaped(parts: seq<string>)
    requires AllBytes(parts)
    ensures UnescapeAll(EscapeAll(parts)) == Some(parts)
  {
    hide Unescape, PathEscape, Bytes;
    if parts != [] {
      UnescapeEscape(parts[0]);
      UnescapeEscaped(parts[1..]);
      assert EscapeAll(parts)[1..] == EscapeAll(parts[1..]);
      assert [parts[0]] + parts[1..] == parts;
    }
  }

  lemma {:induction false} QueryCut(path: string, query: string)
    requires (forall c | c in path :: !EndsPath(c)) && (query == "" || EndsPath(query[0]))
    ensures BeforeQuery(path + query) == path
  {
    if path == "" {
      assert path + query == query;
    } else {
      QueryCut(path[1..], query);
      assert (path + query)[1..] == path[1..] + query;
    }
  }

  lemma {:induction false} JoinHasNoQuery(parts: seq<string>)
    requires forall p | p in parts :: Plain(p)
    ensures forall c | c in Join(parts, "/") :: !EndsPath(c)
  {
    if parts != [] {
      assert Plain(parts[0]);
      JoinHasNoQuery(parts[1..]);
    }
  }

  /** Any path, with any query or fragment after it, reads back as the cache's name and the
      segments, byte for byte, empty ones included. */
  lemma PathReadsBack(name: string, segments: seq<string>, query: string)
    requires Bytes(name) && AllBytes(segments)
    requires query == "" || EndsPath(query[0])
    ensures Parse(PathOf(name, segments) + query) == Some([name] + segments)
  {
    hide PathEscape, Bytes, SplitOn, BeforeQuery, UnescapeAll, Join, EscapeAll, Plain;
    var parts := [name] + segments;
    AllPlain(parts);
    JoinHasNoQuery(EscapeAll(parts));
    SplitEscaped(parts);
    ParseTail(Join(EscapeAll(parts), "/"), query);
    UnescapeEscaped(parts);
  }

  lemma SplitEscaped(parts: seq<string>)
    requires AllBytes(parts) && parts != []
    ensures SplitOn(Join(EscapeAll(parts), "/"), '/') == EscapeAll(parts)
  {
    hide PathEscape, Bytes, SplitOn, Join;
    AllPlain(parts);
    SplitJoin(EscapeAll(parts), '/');
  }

  lemma ParseTail(tail: string, query: string)
    requires (forall c | c in tail :: !EndsPath(c)) && (query == "" || EndsPath(query[0]))
    ensures Parse(PREFIX + tail + query) == UnescapeAll(SplitOn(tail, '/'))
  {
    hide BeforeQuery, SplitOn, UnescapeAll;
    QueryCut(PREFIX + tail, query);
    assert (PREFIX + tail)[|PREFIX|..] == tail;
  }

  /** Two calls share a path only if they name the same cache and the same segments. */
  lemma PathIsInjective(name: string, segments: seq<string>, name': string, segments': seq<string>)
    requires Bytes(name) && AllBytes(segments) && Bytes(name') && AllBytes(segments')
    requires PathOf(name, segments) == PathOf(name', segments')
    ensures name == name' && segments == segments'
  {
    hide *;
    PathReadsBack(name, segments, "");
    PathReadsBack(name', segments', "");
    assert ([name] + segments)[1..] == segments && ([name'] + segments')[1..] == segments';
    assert ([name] + segments)[0] == name && ([name'] + segments')[0] == name';
  }

  lemma OtherKind(name: string, kind: string, kind': string, rest: seq<string>, rest': seq<string>)
    requires Bytes(name) && kind != kind'
    requires AllBytes([kind] + rest) && AllBytes([kind'] + rest')
    ensures PathOf(name, [kind] + rest) != PathOf(name, [kind'] + rest')
  {
    hide *;
    assert ([kind] + rest)[0] == kind && ([kind'] + rest')[0] == kind';
    if PathOf(name, [kind] + rest) == PathOf(name, [kind'] + rest') {
      PathIsInjective(name, [kind] + rest, name, [kind'] + rest');
    }
  }

  lemma Longer(name: string, a: seq<string>, b: seq<string>)
    requires Bytes(name) && AllBytes(a) && AllBytes(b) && |a| != |b|
    ensures PathOf(name, a) != PathOf(name, b)
  {
    hide *;
    if PathOf(name, a) == PathOf(name, b) { PathIsInjective(name, a, name, b); }
  }

  /** No key, whatever its bytes, is another key's path, an operation on a key such as
      keys/incr, a channel's or a hash's. */
  lemma KeyHasItsOwnPath(name: string, key: string, op: string, other: string, rest: seq<string>)
    requires Bytes(name) && Bytes(key) && Bytes(op) && Bytes(other) && AllBytes(rest)
    ensures PathOf(name, ["keys", key]) == PathOf(name, ["keys", other]) ==> key == other
    ensures PathOf(name, ["keys", key]) != PathOf(name, ["keys", op, other])
    ensures PathOf(name, ["keys", key]) != PathOf(name, ["pubsub", other] + rest)
    ensures PathOf(name, ["keys", key]) != PathOf(name, ["hashes", other] + rest)
  {
    hide PathOf, Bytes;
    Literals();
    if PathOf(name, ["keys", key]) == PathOf(name, ["keys", other]) {
      PathIsInjective(name, ["keys", key], name, ["keys", other]);
      assert ["keys", key][1] == ["keys", other][1];
    }
    Longer(name, ["keys", key], ["keys", op, other]);
    assert ["keys", key] == ["keys"] + [key];
    assert ["pubsub", other] + rest == ["pubsub"] + ([other] + rest);
    assert ["hashes", other] + rest == ["hashes"] + ([other] + rest);
    OtherKind(name, "keys", "pubsub", [key], [other] + rest);
    OtherKind(name, "keys", "hashes", [key], [other] + rest);
  }

  lemma Literals()
    ensures Bytes("keys") && Bytes("pubsub") && Bytes("hashes")
  {
  }

  // ----- The bytes of a path -----

  /** What may stand in a path as it is, sections 2.2, 2.3 and 3.3 of RFC 3986. */
  predicate PathByte(c: char) {
    'a' <= c <= 'z' || 'A' <= c <= 'Z' || '0' <= c <= '9' || c in "-._~" || c in "!$&'()*+,;=" || c in ":@/"
  }

  /** Path bytes, and percent signs with two hexadecimal digits behind them. */
  predicate UriPath(s: string) {
    || s == ""
    || (PathByte(s[0]) && UriPath(s[1..]))
    || (|s| >= 3 && s[0] == '%' && Unhex(s[1]).Some? && Unhex(s[2]).Some? && UriPath(s[3..]))
  }

  /** A byte is written as it is exactly when it is a path byte but for slashes and for
      seven of the delimiters, which are escaped too. */
  lemma EscapesExactly(c: char)
    requires c as int < 256
    ensures Escape(c) == [c] <==> PathByte(c) && c !in "!'()*,;/"
    ensures Escape(c) != [c] ==>
            var (h, l) := (Hex(c as int / 16), Hex(c as int % 16));
            Escape(c) == ['%', h, l] && h in "0123456789ABCDEF" && l in "0123456789ABCDEF"
  {
  }

  lemma EscapeIsUri(c: char, rest: string)
    requires c as int < 256 && UriPath(rest)
    ensures UriPath(Escape(c) + rest)
  {
    hide PathByte;
    EscapesExactly(c);
    var s := Escape(c) + rest;
    if Escape(c) == [c] {
      assert s[1..] == rest;
    } else {
      UnhexHex(c as int / 16);
      UnhexHex(c as int % 16);
      assert s[3..] == rest;
    }
  }

  lemma {:induction false} SegmentIsUri(s: string, rest: string)
    requires Bytes(s) && UriPath(rest)
    ensures UriPath(PathEscape(s) + rest)
  {
    hide UriPath, Escape;
    if s == "" {
      assert "" + rest == rest;
    } else {
      SegmentIsUri(s[1..], rest);
      EscapeIsUri(s[0], PathEscape(s[1..]) + rest);
      assert PathEscape(s) + rest == Escape(s[0]) + (PathEscape(s[1..]) + rest);
    }
  }

  lemma {:induction false} PlainIsUri(s: string, rest: string)
    requires (forall c | c in s :: PathByte(c)) && UriPath(rest)
    ensures UriPath(s + rest)
  {
    hide PathByte;
    if s == "" {
      assert "" + rest == rest;
    } else {
      PlainIsUri(s[1..], rest);
      assert (s + rest)[1..] == s[1..] + rest && s[0] in s;
    }
  }

  lemma {:induction false} JoinIsUri(parts: seq<string>)
    requires AllBytes(parts)
    ensures UriPath(Join(EscapeAll(parts), "/"))
  {
    hide UriPath, PathEscape, Bytes;
    NothingIsUri();
    if parts != [] {
      var e, rest := EscapeAll(parts), Join(EscapeAll(parts[1..]), "/");
      assert e[1..] == EscapeAll(parts[1..]);
      JoinIsUri(parts[1..]);
      PlainIsUri("/", rest) by { SlashIsPathByte(); }
      SegmentIsUri(parts[0], if |parts| == 1 then "" else "/" + rest);
      assert e[0] + "" == e[0] && e[0] + "/" + rest == e[0] + ("/" + rest);
    }
  }

  lemma NothingIsUri()
    ensures UriPath("")
  {
  }

  lemma SlashIsPathByte()
    ensures forall c | c in "/" :: PathByte(c)
    ensures forall c | c in PREFIX :: PathByte(c)
  {
  }

  /** Whatever the names are, a path is one that needs no further escaping. */
  lemma PathIsUri(name: string, segments: seq<string>)
    requires Bytes(name) && AllBytes(segments)
    ensures UriPath(PathOf(name, segments))
  {
    hide UriPath, PathByte, PathEscape, Bytes, Join;
    JoinIsUri([name] + segments);
    SlashIsPathByte();
    PlainIsUri(PREFIX, Join(EscapeAll([name] + segments), "/"));
  }

  // ----- A reader that removes dot segments -----

  predicate IsDot(s: string) {
    s == "." || s == ".."
  }

  /** Removal of dot segments, section 5.2.4 of RFC 3986, on the segments of an absolute
      path: "." stands for nothing and ".." takes the segment before it away; at the end
      either leaves an empty segment. */
  function RemoveDots(done: seq<string>, todo: seq<string>): seq<string>
    decreases todo
  {
    if todo == [] then done
    else if IsDot(todo[0]) then
      var kept := if todo[0] == ".." && done != [] then done[..|done| - 1] else done;
      if |todo| == 1 then kept + [""] else RemoveDots(kept, todo[1..])
    else RemoveDots(done + [todo[0]], todo[1..])
  }

  function Base(): seq<string> { ["apps", "cache", "api", "caches"] }

  /** Like Parse, with dot segments removed before anything is decoded. */
  function ParseTidy(target: string): Option<seq<string>> {
    var tidy := RemoveDots([], SplitOn(BeforeQuery(target), '/')[1..]);
    if Base() <= tidy then UnescapeAll(tidy[|Base()|..]) else None
  }

  lemma {:induction false} NoDotsNoChange(done: seq<string>, todo: seq<string>)
    requires forall s | s in todo :: !IsDot(s)
    ensures RemoveDots(done, todo) == done + todo
    decreases todo
  {
    hide IsDot;
    if todo != [] {
      assert todo[0] in todo && done + todo == done + [todo[0]] + todo[1..];
      NoDotsNoChange(done + [todo[0]], todo[1..]);
    }
  }

  lemma {:induction false} NeverLonger(done: seq<string>, todo: seq<string>)
    ensures |RemoveDots(done, todo)| <= |done| + |todo|
    decreases todo
  {
    hide IsDot;
    if todo != [] {
      var kept := if todo[0] == ".." && done != [] then done[..|done| - 1] else done;
      NeverLonger(kept, todo[1..]);
      NeverLonger(done + [todo[0]], todo[1..]);
    }
  }

  /** A dot segment shortens the path, or, standing last, leaves an empty segment. */
  lemma {:induction false} DotsChange(done: seq<string>, todo: seq<string>)
    requires exists s :: s in todo && IsDot(s)
    ensures var r := RemoveDots(done, todo);
            |r| < |done| + |todo| || (|r| == |done| + |todo| && IsDot(todo[|todo| - 1]) && r[|r| - 1] == "")
    decreases todo
  {
    hide IsDot;
    assert todo == [todo[0]] + todo[1..];
    if IsDot(todo[0]) {
      var kept := if todo[0] == ".." && done != [] then done[..|done| - 1] else done;
      NeverLonger(kept, todo[1..]);
    } else {
      DotsChange(done + [todo[0]], todo[1..]);
    }
  }

  lemma {:induction false} UnescapeAllLength(parts: seq<string>)
    ensures UnescapeAll(parts).Some? ==> |UnescapeAll(parts).value| == |parts|
    ensures UnescapeAll(parts).Some? ==>
            forall i | 0 <= i < |parts| :: Unescape(parts[i]) == Some(UnescapeAll(parts).value[i])
  {
    hide Unescape;
    if parts != [] { UnescapeAllLength(parts[1..]); }
  }

  lemma EscapedDots(s: string)
    requires Bytes(s)
    ensures IsDot(PathEscape(s)) <==> IsDot(s)
  {
    hide PathEscape, Unescape;
    UnescapeEscape(s);
    KeptUnchanged(".");
    KeptUnchanged("..");
    UnescapeEscape(".");
    UnescapeEscape("..");
  }

  lemma BaseIsPlain()
    ensures forall s | s in Base() :: '/' !in s && !IsDot(s)
  {
  }

  lemma JoinFour(a: string, b: string, c: string, d: string, sep: string)
    ensures Join([""] + [a, b, c, d], sep) == sep + a + sep + b + sep + c + sep + d
  {
    hide Join;
    JoinAppend([], "", sep);
    JoinAppend([""], a, sep);
    JoinAppend(["", a], b, sep);
    JoinAppend(["", a, b], c, sep);
    JoinAppend(["", a, b, c], d, sep);
    assert [] + [""] == [""] && [""] + [a] == ["", a] && ["", a] + [b] == ["", a, b];
    assert ["", a, b] + [c] == ["", a, b, c] && ["", a, b, c] + [d] == [""] + [a, b, c, d];
    assert "" + sep == sep;
  }

  lemma BaseIsPrefix()
    ensures Join([""] + Base(), "/") + "/" == PREFIX
  {
    hide Join;
    JoinFour("apps", "cache", "api", "caches", "/");
  }

  lemma PathSegments(parts: seq<string>)
    requires AllBytes(parts) && parts != []
    ensures SplitOn(PREFIX + Join(EscapeAll(parts), "/"), '/') == [""] + (Base() + EscapeAll(parts))
  {
    hide PathEscape, Bytes, SplitOn, Join, Base, IsDot;
    AllPlain(parts);
    BaseIsPlain();
    BaseIsPrefix();
    var all := ([""] + Base()) + EscapeAll(parts);
    JoinConcat([""] + Base(), EscapeAll(parts), "/");
    SplitJoin(all, '/');
    assert all == [""] + (Base() + EscapeAll(parts));
  }

  /** A path with anything after it reads back through a reader that removes dot segments exactly
      when neither the name nor a segment is "." or "..". */
  lemma TidyReadsBackExactly(name: string, segments: seq<string>, query: string)
    requires Bytes(name) && AllBytes(segments)
    requires query == "" || EndsPath(query[0])
    ensures ParseTidy(PathOf(name, segments) + query) == Some([name] + segments) <==>
            forall s | s in [name] + segments :: !IsDot(s)
  {
    hide PathEscape, Bytes, SplitOn, BeforeQuery, UnescapeAll, Join, Plain, IsDot, RemoveDots, Base;
    var parts := [name] + segments;
    var escaped := EscapeAll(parts);
    AllPlain(parts);
    JoinHasNoQuery(escaped);
    QueryCut(PathOf(name, segments), query);
    PathSegments(parts);
    var todo := Base() + escaped;
    assert ([""] + todo)[1..] == todo;
    BaseIsPlain();
    forall i | 0 <= i < |parts|
      ensures IsDot(escaped[i]) <==> IsDot(parts[i])
    {
      EscapedDots(parts[i]);
    }
    if forall s | s in parts :: !IsDot(s) {
      NoDotsNoChange([], todo);
      assert [] + todo == todo && todo[|Base()|..] == escaped;
      UnescapeEscaped(parts);
    } else {
      DotsLoseParts(parts, escaped);
    }
  }

  lemma DotsLoseParts(parts: seq<string>, escaped: seq<string>)
    requires |escaped| == |parts| && parts != [] && exists s :: s in parts && IsDot(s)
    requires forall i | 0 <= i < |parts| :: IsDot(escaped[i]) <==> IsDot(parts[i])
    ensures var tidy := RemoveDots([], Base() + escaped);
            Base() <= tidy ==> UnescapeAll(tidy[|Base()|..]) != Some(parts)
  {
    hide UnescapeAll, RemoveDots, Base, IsDot;
    var s :| s in parts && IsDot(s);
    var i :| 0 <= i < |parts| && parts[i] == s;
    var todo := Base() + escaped;
    assert todo[|Base()| + i] == escaped[i];
    DotsChange([], todo);
    var tidy := RemoveDots([], todo);
    if Base() <= tidy {
      var rest := tidy[|Base()|..];
      UnescapeAllLength(rest);
      EmptyIsNoDot();
      if |tidy| == |todo| {
        assert rest[|rest| - 1] == "" && todo[|todo| - 1] == escaped[|escaped| - 1];
      }
    }
  }

  lemma EmptyIsNoDot()
    ensures !IsDot("") && Unescape("") == Some("")
  {
  }

  /** The keys ".." and "." do alias: one path asks for the cache, the other for all keys. */
  lemma DotKeys(name: string)
    requires Bytes(name) && !IsDot(name)
    ensures Bytes("keys") && Bytes(".") && Bytes("..")
    ensures ParseTidy(PathOf(name, ["keys", ".."])) == Some([name, ""])
    ensures ParseTidy(PathOf(name, ["keys", "."])) == Some([name, "keys", ""])
  {
    hide PathEscape, Bytes, ParseTidy, PathOf;
    DotKey(name, "..");
    DotKey(name, ".");
  }

  lemma {:induction false} DotsPass(done: seq<string>, front: seq<string>, rest: seq<string>)
    requires (forall s | s in front :: !IsDot(s)) && rest != []
    ensures RemoveDots(done, front + rest) == RemoveDots(done + front, rest)
    decreases front
  {
    hide IsDot;
    if front == [] {
      assert front + rest == rest && done + front == done;
    } else {
      var f := front[1..];
      assert front[0] in front && (front + rest)[1..] == f + rest && done + front == done + [front[0]] + f;
      DotsPass(done + [front[0]], f, rest);
    }
  }

  lemma {:induction false} KeptUnchanged(s: string)
    requires forall i | 0 <= i < |s| :: Kept(s[i])
    ensures Bytes(s) && PathEscape(s) == s
  {
    if s != "" {
      KeptUnchanged(s[1..]);
      assert s == [s[0]] + s[1..];
    }
  }

  lemma Escapes(dots: string)
    requires IsDot(dots)
    ensures Bytes(dots) && PathEscape(dots) == dots && Bytes("keys") && PathEscape("keys") == "keys"
    ensures Bytes("") && PathEscape("") == ""
  {
    hide PathEscape, Bytes;
    KeptUnchanged(dots);
    KeptUnchanged("keys");
    KeptUnchanged("");
  }

  lemma DotKey(name: string, dots: string)
    requires Bytes(name) && !IsDot(name) && IsDot(dots)
    ensures Bytes("keys") && Bytes(dots)
    ensures ParseTidy(PathOf(name, ["keys", dots])) == Some(if dots == ".." then [name, ""] else [name, "keys", ""])
  {
    hide PathEscape, Bytes, SplitOn, BeforeQuery, UnescapeAll, Join, Plain, RemoveDots, Base;
    Escapes(dots);
    var parts := [name] + ["keys", dots];
    var escaped := EscapeAll(parts);
    EscapedDots(name);
    BaseIsPlain();
    AllPlain(parts);
    JoinHasNoQuery(escaped);
    QueryCut(PathOf(name, ["keys", dots]), "");
    assert PathOf(name, ["keys", dots]) + "" == PathOf(name, ["keys", dots]);
    PathSegments(parts);
    var front := Base() + [escaped[0], "keys"];
    assert ([""] + (Base() + escaped))[1..] == front + [dots];
    DotsPass([], front, [dots]);
    LastDot(front, dots);
    var left := if dots == ".." then [name, ""] else [name, "keys", ""];
    var tidy := RemoveDots([] + front, [dots]);
    assert [] + front == front;
    assert AllBytes(left);
    UnescapeEscaped(left);
    assert EscapeAll(left) == tidy[|Base()|..];
  }

  lemma LastDot(front: seq<string>, dots: string)
    requires IsDot(dots) && front != []
    ensures RemoveDots(front, [dots]) == (if dots == ".." then front[..|front| - 1] else front) + [""]
  {
  }
}
