/** Path policy of outbound HTTP: a path is checked before it is decoded, and a route admits a subtree.
    Strings are read as bytes: a percent escape decodes to one character below 256. */
module EgressPath {

  datatype ErrorCode = PathInvalid | PathSeparatorEncoded | PathTraversal | DestinationNotAllowed

  datatype Result<T> = Ok(value: T) | Err(code: ErrorCode)

  // ---------- percent decoding (section 2.1 of RFC 3986) ----------

  predicate IsHex(c: char) {
    '0' <= c <= '9' || 'a' <= c <= 'f' || 'A' <= c <= 'F'
  }

  function HexValue(c: char): (v: nat)
    requires IsHex(c)
    ensures v < 16
  {
    if '0' <= c <= '9' then c as int - '0' as int
    else if 'a' <= c <= 'f' then c as int - 'a' as int + 10
    else c as int - 'A' as int + 10
  }

  predicate StartsWithEscape(s: string) {
    |s| >= 3 && s[0] == '%' && IsHex(s[1]) && IsHex(s[2])
  }

  function Escaped(s: string): char
    requires StartsWithEscape(s)
  {
    (16 * HexValue(s[1]) + HexValue(s[2])) as char
  }

  // A percent sign that no two hex digits follow stands for itself.
  function Unquote(s: string): string {
    if s == [] then []
    else if StartsWithEscape(s) then [Escaped(s)] + Unquote(s[3..])
    else [s[0]] + Unquote(s[1..])
  }

  function Split(s: string): (segments: seq<string>)
    ensures |segments| > 0
  {
    if s == [] then [""]
    else
      var rest := Split(s[1..]);
      if s[0] == '/' then [""] + rest else [[s[0]] + rest[0]] + rest[1..]
  }

  // ---------- the check ----------

  function LowerChar(c: char): char {
    if 'A' <= c <= 'Z' then (c as int - 'A' as int + 'a' as int) as char else c
  }

  function Lower(s: string): string {
    seq(|s|, i requires 0 <= i < |s| => LowerChar(s[i]))
  }

  predicate ContainsAt(s: string, sub: string, i: nat) {
    i + |sub| <= |s| && s[i..i + |sub|] == sub
  }

  predicate Contains(s: string, sub: string) {
    exists i :: 0 <= i <= |s| && ContainsAt(s, sub, i)
  }

  predicate HasDotSegment(s: string) {
    "." in Split(s) || ".." in Split(s)
  }

  function ValidatedPath(path: string): Result<string> {
    if path == [] || path[0] != '/' || HasBackslash(path) then Err(PathInvalid)
    else if Contains(Lower(path), "%2f") || Contains(Lower(path), "%5c") then Err(PathSeparatorEncoded)
    else if HasDotSegment(Unquote(path)) then Err(PathTraversal)
    else Ok(path)
  }

  // ---------- decoding and splitting ----------

  function Decoded(segments: seq<string>): seq<string> {
    seq(|segments|, i requires 0 <= i < |segments| => Unquote(segments[i]))
  }

  predicate EncodedSlashAt(s: string, i: nat) {
    i + 2 < |s| && s[i] == '%' && s[i + 1] == '2' && (s[i + 2] == 'f' || s[i + 2] == 'F')
  }

  predicate HasEncodedSlash(s: string) {
    exists i :: 0 <= i < |s| && EncodedSlashAt(s, i)
  }

  lemma {:induction false} EncodedSlashIsRefused(s: string)
    ensures HasEncodedSlash(s) <==> Contains(Lower(s), "%2f")
  {
    forall i: nat ensures ContainsAt(Lower(s), "%2f", i) <==> EncodedSlashAt(s, i) {
      LowerEscapeAt(s, i);
    }
    if i: nat :| EncodedSlashAt(s, i) {
      assert ContainsAt(Lower(s), "%2f", i);
    }
  }

  lemma {:induction false} LowerEscapeAt(s: string, i: nat)
    ensures ContainsAt(Lower(s), "%2f", i) <==> EncodedSlashAt(s, i)
  {
    var l := Lower(s);
    if i + 3 <= |s| {
      var part := l[i..i + 3];
      assert part[0] == LowerChar(s[i]) && part[1] == LowerChar(s[i + 1]) && part[2] == LowerChar(s[i + 2]);
      assert part == "%2f" <==> part[0] == '%' && part[1] == '2' && part[2] == 'f';
    }
  }

  predicate EncodedBackslashAt(s: string, i: nat) {
    i + 2 < |s| && s[i] == '%' && s[i + 1] == '5' && (s[i + 2] == 'c' || s[i + 2] == 'C')
  }

  predicate HasEncodedBackslash(s: string) {
    exists i :: 0 <= i < |s| && EncodedBackslashAt(s, i)
  }

  lemma {:induction false} EncodedBackslashIsRefused(s: string)
    ensures HasEncodedBackslash(s) <==> Contains(Lower(s), "%5c")
  {
    var l := Lower(s);
    forall i: nat ensures ContainsAt(l, "%5c", i) <==> EncodedBackslashAt(s, i) {
      if i + 3 <= |s| {
        var part := l[i..i + 3];
        assert part[0] == LowerChar(s[i]) && part[1] == LowerChar(s[i + 1]) && part[2] == LowerChar(s[i + 2]);
        assert part == "%5c" <==> part[0] == '%' && part[1] == '5' && part[2] == 'c';
      }
    }
    if i: nat :| EncodedBackslashAt(s, i) {
      assert ContainsAt(l, "%5c", i);
    }
  }

  const BACKSLASH := '\\'

  predicate HasBackslash(s: string) {
    BACKSLASH in s
  }

  // A decoded path has a backslash exactly if the path has one, plain or encoded.
  lemma {:induction false} DecodedBackslash(s: string)
    ensures HasBackslash(Unquote(s)) <==> HasBackslash(s) || HasEncodedBackslash(s)
  {
    if s != [] {
      var n := Width(s);
      DecodedBackslash(s[n..]);
      FirstBackslash(s);
      BackslashIsFirstOrLater(s);
    }
  }

  lemma {:induction false} FirstBackslash(s: string)
    requires s != []
    ensures HasBackslash(Unquote(s)) <==>
              s[0] == BACKSLASH || EncodedBackslashAt(s, 0) || HasBackslash(Unquote(s[Width(s)..]))
  {
    assert Unquote(s) == [if StartsWithEscape(s) then Escaped(s) else s[0]] + Unquote(s[Width(s)..]);
    assert BACKSLASH as int == 16 * 5 + 12;
  }

  lemma {:induction false} BackslashIsFirstOrLater(s: string)
    requires s != []
    ensures HasBackslash(s) <==> s[0] == BACKSLASH || HasBackslash(s[Width(s)..])
    ensures HasEncodedBackslash(s) <==> EncodedBackslashAt(s, 0) || HasEncodedBackslash(s[Width(s)..])
  {
    var n := Width(s);
    var rest := s[n..];
    assert s == s[..n] + rest;
    if i :| 0 <= i < |s| && EncodedBackslashAt(s, i) {
      if i >= n {
        assert EncodedBackslashAt(rest, i - n);
      }
    }
    if i :| 0 <= i < |rest| && EncodedBackslashAt(rest, i) {
      assert EncodedBackslashAt(s, n + i);
    }
  }

  lemma {:induction false} EscapeIsSlash(s: string)
    requires StartsWithEscape(s)
    ensures Escaped(s) == '/' <==> EncodedSlashAt(s, 0)
  {
    assert '/' as int == 16 * 2 + 15;
  }

  lemma {:induction false} TailsHaveNoEncodedSlash(s: string, n: nat)
    requires !HasEncodedSlash(s) && n <= |s|
    ensures !HasEncodedSlash(s[n..])
  {
    forall i | 0 <= i < |s[n..]| ensures !EncodedSlashAt(s[n..], i) {
      assert EncodedSlashAt(s[n..], i) == EncodedSlashAt(s, n + i);
    }
  }

  lemma {:induction false} FirstSegmentIsPrefix(s: string)
    ensures Split(s)[0] <= s && '/' !in Split(s)[0]
  {
    if s != [] && s[0] != '/' {
      FirstSegmentIsPrefix(s[1..]);
    }
  }

  // Prepending a character other than a slash extends the first segment.
  lemma {:induction false} SplitPrepend(c: char, s: string)
    requires c != '/'
    ensures Split([c] + s) == [[c] + Split(s)[0]] + Split(s)[1..]
  {
    assert ([c] + s)[1..] == s;
  }

  lemma {:induction false} DecodingCommutes(s: string)
    requires !HasEncodedSlash(s)
    ensures Split(Unquote(s)) == Decoded(Split(s))
  {
    if s != [] {
      if StartsWithEscape(s) {
        EscapeIsSlash(s);
        assert !EncodedSlashAt(s, 0);
        TailsHaveNoEncodedSlash(s, 3);
        DecodingCommutes(s[3..]);
        EscapeCommutes(s);
      } else {
        TailsHaveNoEncodedSlash(s, 1);
        DecodingCommutes(s[1..]);
        PlainCharacterCommutes(s);
      }
    }
  }

  // An escape stays inside the first segment.
  lemma {:induction false} EscapeSplits(s: string)
    requires StartsWithEscape(s)
    ensures Split(s) == [s[..3] + Split(s[3..])[0]] + Split(s[3..])[1..]
  {
    var rest := Split(s[3..]);
    SplitPrepend(s[2], s[3..]);
    SplitPrepend(s[1], s[2..]);
    SplitPrepend(s[0], s[1..]);
    assert [s[2]] + s[3..] == s[2..] && [s[1]] + s[2..] == s[1..] && [s[0]] + s[1..] == s;
    assert [s[0]] + ([s[1]] + ([s[2]] + rest[0])) == s[..3] + rest[0];
  }

  lemma {:induction false} EscapeCommutes(s: string)
    requires StartsWithEscape(s) && Escaped(s) != '/'
    requires Split(Unquote(s[3..])) == Decoded(Split(s[3..]))
    ensures Split(Unquote(s)) == Decoded(Split(s))
  {
    var rest := Split(s[3..]);
    var first := s[..3] + rest[0];
    EscapeSplits(s);
    assert first[3..] == rest[0] && StartsWithEscape(first) && Escaped(first) == Escaped(s);
    SplitPrepend(Escaped(s), Unquote(s[3..]));
    DecodedPrepend(first, rest[1..]);
    DecodedPrepend(rest[0], rest[1..]);
    assert rest == [rest[0]] + rest[1..];
  }

  lemma {:induction false} PlainCharacterCommutes(s: string)
    requires s != [] && !StartsWithEscape(s)
    requires Split(Unquote(s[1..])) == Decoded(Split(s[1..]))
    ensures Split(Unquote(s)) == Decoded(Split(s))
  {
    var rest, tail := Split(s[1..]), Unquote(s[1..]);
    assert Unquote(s) == [s[0]] + tail;
    if s[0] == '/' {
      SlashSplits(tail);
      DecodedPrepend("", rest);
    } else {
      var first := [s[0]] + rest[0];
      FirstSegmentIsPrefix(s[1..]);
      FirstStaysPlain(s, rest[0]);
      SplitPrepend(s[0], tail);
      DecodedPrepend(first, rest[1..]);
      DecodedPrepend(rest[0], rest[1..]);
      assert rest == [rest[0]] + rest[1..];
    }
  }

  lemma {:induction false} SlashSplits(s: string)
    ensures Split(['/'] + s) == [""] + Split(s)
  {
    assert (['/'] + s)[1..] == s;
  }

  lemma {:induction false} DecodedPrepend(segment: string, segments: seq<string>)
    ensures Decoded([segment] + segments) == [Unquote(segment)] + Decoded(segments)
  {
  }

  lemma {:induction false} FirstStaysPlain(s: string, segment: string)
    requires s != [] && !StartsWithEscape(s) && segment <= s[1..]
    ensures Unquote([s[0]] + segment) == [s[0]] + Unquote(segment)
  {
    var first := [s[0]] + segment;
    assert first[1..] == segment;
    assert !StartsWithEscape(first);
  }

  function Slashes(s: string): nat {
    if s == [] then 0 else (if s[0] == '/' then 1 else 0) + Slashes(s[1..])
  }

  lemma {:induction false} SegmentsAreSlashes(s: string)
    ensures |Split(s)| == 1 + Slashes(s)
  {
    if s != [] {
      SegmentsAreSlashes(s[1..]);
    }
  }

  lemma {:induction false} EscapeHasNoSlash(s: string)
    requires StartsWithEscape(s)
    ensures Slashes(s) == Slashes(s[3..])
  {
    assert s[1..][1..] == s[2..] && s[2..][1..] == s[3..];
    assert Slashes(s) == Slashes(s[1..]) == Slashes(s[2..]) == Slashes(s[3..]);
  }

  // How many characters the first decoded character takes.
  function Width(s: string): (n: nat)
    requires s != []
    ensures 0 < n <= |s|
  {
    if StartsWithEscape(s) then 3 else 1
  }

  lemma {:induction false} SlashesStep(s: string)
    requires s != []
    ensures
      var rest := s[Width(s)..];
      && Slashes(s) == (if s[0] == '/' then 1 else 0) + Slashes(rest)
      && Slashes(Unquote(s)) == (if s[0] == '/' || EncodedSlashAt(s, 0) then 1 else 0) + Slashes(Unquote(rest))
  {
    assert Unquote(s)[1..] == Unquote(s[Width(s)..]);
    if StartsWithEscape(s) {
      EscapeIsSlash(s);
      EscapeHasNoSlash(s);
    }
  }

  lemma {:induction false} EncodedSlashIsFirstOrLater(s: string)
    requires s != [] && HasEncodedSlash(s)
    ensures EncodedSlashAt(s, 0) || HasEncodedSlash(s[Width(s)..])
  {
    var i :| 0 <= i < |s| && EncodedSlashAt(s, i);
    if i >= Width(s) {
      assert EncodedSlashAt(s[Width(s)..], i - Width(s));
    }
  }

  lemma {:induction false} DecodingAddsSlashes(s: string)
    ensures Slashes(Unquote(s)) >= Slashes(s)
    ensures HasEncodedSlash(s) ==> Slashes(Unquote(s)) > Slashes(s)
  {
    if s != [] {
      DecodingAddsSlashes(s[Width(s)..]);
      SlashesStep(s);
      if HasEncodedSlash(s) {
        EncodedSlashIsFirstOrLater(s);
      }
    }
  }

  // Decoding commutes with splitting on "/" exactly when no slash is percent-encoded.
  lemma {:induction false} DecodingCommutesIff(s: string)
    ensures Split(Unquote(s)) == Decoded(Split(s)) <==> !HasEncodedSlash(s)
  {
    if HasEncodedSlash(s) {
      DecodingAddsSlashes(s);
      SegmentsAreSlashes(s);
      SegmentsAreSlashes(Unquote(s));
    } else {
      DecodingCommutes(s);
    }
  }

  // ---------- removing dot segments (section 5.2.4 of RFC 3986) ----------

  function NextSlash(s: string, from: nat): (e: nat)
    requires from <= |s|
    ensures from <= e <= |s| && '/' !in s[from..e] && (e < |s| ==> s[e] == '/')
    decreases |s| - from
  {
    if from == |s| || s[from] == '/' then from else NextSlash(s, from + 1)
  }

  // Drops the last segment of the output buffer and the slash before it, if any.
  function DropLast(output: string): string {
    if output == [] then []
    else if output[|output| - 1] == '/' then output[..|output| - 1]
    else DropLast(output[..|output| - 1])
  }

  function RemoveDots(input: string, output: string): string
    decreases |input|
  {
    if input == [] then output
    else if "../" <= input then RemoveDots(input[3..], output)
    else if "./" <= input then RemoveDots(input[2..], output)
    else if "/./" <= input then RemoveDots("/" + input[3..], output)
    else if input == "/." then RemoveDots("/", output)
    else if "/../" <= input then RemoveDots("/" + input[4..], DropLast(output))
    else if input == "/.." then RemoveDots("/", DropLast(output))
    else if input == "." || input == ".." then output
    else
      var e := NextSlash(input, 1);
      RemoveDots(input[e..], output + input[..e])
  }

  lemma {:induction false} SplitAt(s: string, e: nat)
    requires e <= |s| && '/' !in s[..e] && (e < |s| ==> s[e] == '/')
    ensures Split(s) == [s[..e]] + Split(s[e..])[1..]
  {
    if e > 0 {
      assert s[1..][e - 1..] == s[e..];
      assert s[1..][..e - 1] == s[..e][1..];
      assert s[..e] == [s[0]] + s[1..][..e - 1];
      assert s[0] in s[..e];
      SplitAt(s[1..], e - 1);
    } else {
      assert s[0..] == s;
    }
  }

  // A path is its first segment, up to the next slash, and the rest.
  lemma {:induction false} PieceSplit(s: string, e: nat)
    requires s != [] && s[0] == '/' && 1 <= e <= |s|
    requires '/' !in s[1..e] && (e < |s| ==> s[e] == '/')
    ensures Split(s) == [""] + ([s[1..e]] + Split(s[e..])[1..])
  {
    TailSplit(s, e);
  }

  lemma {:induction false} TailSplit(s: string, e: nat)
    requires s != [] && 1 <= e <= |s|
    requires '/' !in s[1..e] && (e < |s| ==> s[e] == '/')
    ensures Split(s[1..]) == [s[1..e]] + Split(s[e..])[1..]
  {
    var tail := s[1..];
    assert tail[..e - 1] == s[1..e] && tail[e - 1..] == s[e..];
    SplitAt(tail, e - 1);
  }

  predicate NoDots(segments: seq<string>) {
    "." !in segments && ".." !in segments
  }

  // A piece that is no dot segment moves to the output.
  lemma {:induction false} PlainPieceMoves(input: string, output: string, e: nat)
    requires input != [] && input[0] == '/' && e == NextSlash(input, 1)
    requires input[1..e] != "." && input[1..e] != ".."
    ensures RemoveDots(input, output) == RemoveDots(input[e..], output + input[..e])
  {
    DotPieces(input, e);
  }

  lemma {:induction false} NoDotsIsKept(input: string, output: string)
    requires input != [] ==> input[0] == '/'
    requires NoDots(Split(input))
    ensures RemoveDots(input, output) == output + input
    decreases |input|
  {
    if input == [] {
      assert output + input == output;
    } else {
      var e := NextSlash(input, 1);
      NoDotsAhead(input, e);
      NoDotsIsKept(input[e..], output + input[..e]);
      PlainPieceMoves(input, output, e);
      Rejoined(output, input, e);
    }
  }

  lemma {:induction false} Rejoined(output: string, input: string, e: nat)
    requires e <= |input|
    ensures output + input[..e] + input[e..] == output + input
  {
  }

  lemma {:induction false} NoDotsAhead(input: string, e: nat)
    requires input != [] && input[0] == '/' && e == NextSlash(input, 1) && NoDots(Split(input))
    ensures input[1..e] != "." && input[1..e] != ".." && NoDots(Split(input[e..]))
    ensures input[e..] != [] ==> input[e..][0] == '/'
  {
    PieceSplit(input, e);
    PieceHasNoDots(input[1..e], Split(input[e..]), Split(input));
  }

  lemma {:induction false} PieceHasNoDots(piece: string, rest: seq<string>, all: seq<string>)
    requires |rest| > 0 && all == [""] + ([piece] + rest[1..]) && NoDots(all)
    requires rest[0] == "" || rest[0] in all
    ensures piece != "." && piece != ".." && NoDots(rest)
  {
    assert all[1] == piece;
    forall x | x in rest[1..] ensures x in all {}
    assert rest == [rest[0]] + rest[1..];
  }

  // The four rules about a leading dot segment look at the first segment only.
  lemma {:induction false} DotPieces(s: string, e: nat)
    requires s != [] && s[0] == '/' && e == NextSlash(s, 1)
    ensures s[1..e] == "." <==> "/./" <= s || s == "/."
    ensures s[1..e] == ".." <==> "/../" <= s || s == "/.."
  {
    if s[1..e] == "." {
      assert e == 2 && s[1] == s[1..e][0];
      if |s| > 2 { assert s[..3] == "/./"; }
    }
    if s[1..e] == ".." {
      assert e == 3 && s[1] == s[1..e][0] && s[2] == s[1..e][1];
      if |s| > 3 { assert s[..4] == "/../"; }
    }
    if "/./" <= s || s == "/." {
      assert s[1..2] == ".";
      NextSlashIs(s, 1, 2);
    }
    if "/../" <= s || s == "/.." {
      assert s[1..3] == "..";
      NextSlashIs(s, 1, 3);
    }
  }

  lemma {:induction false} NextSlashIs(s: string, from: nat, e: nat)
    requires from <= e <= |s| && '/' !in s[from..e] && (e < |s| ==> s[e] == '/')
    ensures NextSlash(s, from) == e
    decreases e - from
  {
    if from < e {
      assert s[from] in s[from..e];
      NextSlashIs(s, from + 1, e);
    }
  }

  lemma {:induction false} RemovingNeverGrows(input: string, output: string)
    ensures |RemoveDots(input, output)| <= |output| + |input|
    decreases |input|
  {
    if input == [] || input == "." || input == ".." {
    } else if "../" <= input {
      RemovingNeverGrows(input[3..], output);
    } else if "./" <= input {
      RemovingNeverGrows(input[2..], output);
    } else if "/./" <= input {
      RemovingNeverGrows("/" + input[3..], output);
    } else if input == "/." {
      RemovingNeverGrows("/", output);
    } else if "/../" <= input || input == "/.." {
      DropLastShortens(output);
      RemovingNeverGrows(if "/../" <= input then "/" + input[4..] else "/", DropLast(output));
    } else {
      RemovingNeverGrows(input[NextSlash(input, 1)..], output + input[..NextSlash(input, 1)]);
    }
  }

  lemma {:induction false} DropLastShortens(output: string)
    ensures |DropLast(output)| <= |output|
  {
    if output != [] && output[|output| - 1] != '/' {
      DropLastShortens(output[..|output| - 1]);
    }
  }

  lemma {:induction false} DotsAreRemoved(input: string, output: string)
    requires input != [] && input[0] == '/' && !NoDots(Split(input))
    ensures |RemoveDots(input, output)| < |output| + |input|
    decreases |input|
  {
    var e := NextSlash(input, 1);
    DotPieces(input, e);
    PieceSplit(input, e);
    if input[1..e] == "." {
      if "/./" <= input { RemovingNeverGrows("/" + input[3..], output); } else { RemovingNeverGrows("/", output); }
    } else if input[1..e] == ".." {
      DropLastShortens(output);
      RemovingNeverGrows(if "/../" <= input then "/" + input[4..] else "/", DropLast(output));
    } else {
      var rest := input[e..];
      assert Split(input) == [""] + ([input[1..e]] + Split(rest)[1..]);
      assert !NoDots(Split(rest)[1..]);
      assert rest != [];
      DotsAreRemoved(rest, output + input[..e]);
    }
  }

  // A path is what dot removal leaves of it exactly when none of its segments is a dot segment.
  lemma {:induction false} FixedPointOfDotRemoval(path: string)
    requires path != [] && path[0] == '/'
    ensures RemoveDots(path, "") == path <==> !HasDotSegment(path)
  {
    if HasDotSegment(path) {
      DotsAreRemoved(path, "");
    } else {
      NoDotsIsKept(path, "");
      assert "" + path == path;
    }
  }

  // What the check promises of a path it accepts, and that it accepts every path of that kind.
  lemma {:induction false} AcceptedExactly(path: string)
    ensures ValidatedPath(path).Ok? <==>
              && path != [] && path[0] == '/' && !HasBackslash(Unquote(path))
              && Split(Unquote(path)) == Decoded(Split(path))
              && RemoveDots(Unquote(path), "") == Unquote(path)
    ensures ValidatedPath(path).Ok? ==> ValidatedPath(path).value == path
  {
    EncodedSlashIsRefused(path);
    EncodedBackslashIsRefused(path);
    DecodedBackslash(path);
    DecodingCommutesIff(path);
    if path != [] && path[0] == '/' {
      assert Unquote(path)[0] == '/';
      FixedPointOfDotRemoval(Unquote(path));
    }
  }

  // Each refusal names its first reason: the form of the path, then an encoded separator, then a dot segment.
  lemma {:induction false} RefusedExactly(path: string)
    ensures
      var malformed := path == [] || path[0] != '/' || HasBackslash(path);
      var separator := HasEncodedSlash(path) || HasEncodedBackslash(path);
      var traversal := "." in Split(Unquote(path)) || ".." in Split(Unquote(path));
      && (ValidatedPath(path) == Err(PathInvalid) <==> malformed)
      && (ValidatedPath(path) == Err(PathSeparatorEncoded) <==> !malformed && separator)
      && (ValidatedPath(path) == Err(PathTraversal) <==> !malformed && !separator && traversal)
      && (ValidatedPath(path).Ok? <==> !malformed && !separator && !traversal)
  {
    EncodedSlashIsRefused(path);
    EncodedBackslashIsRefused(path);
  }

  // ---------- route subtrees ----------

  // A route's prefix has passed ValidatedPath when the route was built.
  function AllowsPath(prefix: string, path: string): Result<bool> {
    var candidate := ValidatedPath(path);
    if candidate.Err? then Err(candidate.code)
    else if prefix == "/" || path == prefix then Ok(true)
    else
      var boundary := if prefix != [] && prefix[|prefix| - 1] == '/' then prefix else prefix + "/";
      Ok(boundary <= path)
  }

  function Join(segments: seq<string>): string
    requires |segments| > 0
  {
    if |segments| == 1 then segments[0] else segments[0] + "/" + Join(segments[1..])
  }

  lemma {:induction false} JoinSplit(s: string)
    ensures Join(Split(s)) == s
  {
    if s != [] {
      JoinSplit(s[1..]);
      var rest := Split(s[1..]);
      if s[0] == '/' {
        assert ([""] + rest)[1..] == rest;
        assert Join([""] + rest) == "" + "/" + Join(rest) == ['/'] + s[1..];
      } else {
        var segments := [[s[0]] + rest[0]] + rest[1..];
        if |rest| == 1 {
          assert Join(segments) == [s[0]] + rest[0];
        } else {
          assert segments[1..] == rest[1..];
          assert Join(segments) == [s[0]] + (rest[0] + "/" + Join(rest[1..]));
        }
      }
    }
  }

  lemma {:induction false} SplitIsInjective(a: string, b: string)
    requires Split(a) == Split(b)
    ensures a == b
  {
    JoinSplit(a);
    JoinSplit(b);
  }

  ghost predicate Leads(segments: seq<string>, candidate: seq<string>) {
    segments <= candidate
  }

  // "s/" starts the candidate exactly when the segments of s properly lead the candidate's.
  lemma {:induction false} BoundaryLeads(s: string, candidate: string)
    ensures s + "/" <= candidate <==> Split(s) < Split(candidate)
  {
    if s == [] {
      if candidate != [] && candidate[0] == '/' {
        assert Split(candidate)[..1] == [""];
      } else if candidate != [] {
        assert Split(candidate)[0] != "";
      }
    } else if candidate == [] {
      assert !(Split(s) < [""]);
    } else {
      BoundaryLeads(s[1..], candidate[1..]);
      TailBoundary(s, candidate);
      HeadLeads(s, candidate);
    }
  }

  lemma {:induction false} TailBoundary(s: string, candidate: string)
    requires s != [] && candidate != []
    ensures s + "/" <= candidate <==> s[0] == candidate[0] && s[1..] + "/" <= candidate[1..]
  {
    assert (s + "/")[1..] == s[1..] + "/";
    assert s + "/" == [s[0]] + (s[1..] + "/");
    assert candidate == [candidate[0]] + candidate[1..];
    if s[0] == candidate[0] && s[1..] + "/" <= candidate[1..] {
      var n := |s| + 1;
      assert candidate[..n] == [candidate[0]] + candidate[1..][..n - 1];
    }
    if s + "/" <= candidate {
      var n := |s| + 1;
      assert candidate[..n] == s + "/";
      assert candidate[..n][1..] == candidate[1..][..n - 1];
    }
  }

  lemma {:induction false} HeadLeads(s: string, candidate: string)
    requires s != [] && candidate != []
    ensures Split(s) < Split(candidate) <==> s[0] == candidate[0] && Split(s[1..]) < Split(candidate[1..])
  {
    var a, b := Split(s[1..]), Split(candidate[1..]);
    if s[0] == '/' && candidate[0] == '/' {
      PrefixCons("", a, "", b);
    } else if s[0] != '/' && candidate[0] != '/' {
      PrefixCons([s[0]] + a[0], a[1..], [candidate[0]] + b[0], b[1..]);
      PrefixCons(a[0], a[1..], b[0], b[1..]);
      assert a == [a[0]] + a[1..] && b == [b[0]] + b[1..];
      assert ([s[0]] + a[0])[1..] == a[0] && ([candidate[0]] + b[0])[1..] == b[0];
    } else {
      assert Split(s)[0] != Split(candidate)[0];
    }
  }

  lemma {:induction false} PrefixCons(x: string, xs: seq<string>, y: string, ys: seq<string>)
    ensures [x] + xs < [y] + ys <==> x == y && xs < ys
  {
    var a, b := [x] + xs, [y] + ys;
    if a < b {
      assert a[0] == b[0];
      forall i | 0 <= i < |xs| ensures xs[i] == ys[i] {
        assert a[i + 1] == b[i + 1];
      }
    }
    if x == y && xs < ys {
      forall i | 0 <= i < |a| ensures a[i] == b[i] {
        if i > 0 {
          assert xs[i - 1] == ys[i - 1];
        }
      }
    }
  }

  lemma {:induction false} SplitSlash(s: string)
    ensures Split(s + "/") == Split(s) + [""]
  {
    if s == [] {
      assert s + "/" == ['/'] + "";
      SlashSplits("");
    } else {
      assert (s + "/")[1..] == s[1..] + "/";
      SplitSlash(s[1..]);
    }
  }

  // The segments a route stands for: those of its prefix, without a final empty one.
  ghost function RouteSegments(prefix: string): seq<string> {
    Trim(Split(prefix))
  }

  ghost function Trim(segments: seq<string>): seq<string>
    requires segments != []
  {
    if segments[|segments| - 1] == "" then segments[..|segments| - 1] else segments
  }

  predicate AdmitsString(prefix: string, path: string) {
    path == prefix || (if prefix != [] && prefix[|prefix| - 1] == '/' then prefix else prefix + "/") <= path
  }

  lemma {:induction false} SlashedRoute(s: string, path: string)
    ensures AdmitsString(s + "/", path) <==> Leads(RouteSegments(s + "/"), Split(path)) && path + "/" != s + "/"
  {
    var prefix := s + "/";
    assert prefix[|prefix| - 1] == '/';
    SplitSlash(s);
    assert RouteSegments(prefix) == Split(s);
    BoundaryLeads(s, path);
    assert AdmitsString(prefix, path) <==> Split(s) < Split(path);
    if Split(s) == Split(path) {
      SplitIsInjective(s, path);
    }
    if path + "/" == prefix {
      assert path == (path + "/")[..|s|] == s;
    }
  }

  lemma {:induction false} PlainRoute(prefix: string, path: string)
    requires prefix != [] && prefix[|prefix| - 1] != '/'
    ensures AdmitsString(prefix, path) <==> Leads(RouteSegments(prefix), Split(path))
    ensures path + "/" != prefix
  {
    LastSegment(prefix);
    BoundaryLeads(prefix, path);
    assert (path + "/")[|path + "/"| - 1] == '/';
    if Split(prefix) == Split(path) {
      SplitIsInjective(prefix, path);
    }
  }

  // A route admits the paths its segments lead, except that a prefix written with a final
  // slash does not admit the same path written without one.
  lemma {:induction false} AllowsPathIsSegmentPrefix(prefix: string, path: string)
    requires ValidatedPath(prefix).Ok? && ValidatedPath(path).Ok?
    ensures AllowsPath(prefix, path) == Ok(Leads(RouteSegments(prefix), Split(path)) && path + "/" != prefix)
  {
    AllowsIsAdmits(prefix, path);
    AdmitsIsSegmentPrefix(prefix, path);
  }

  lemma {:induction false} AllowsIsAdmits(prefix: string, path: string)
    requires ValidatedPath(path).Ok?
    ensures AllowsPath(prefix, path) == Ok(AdmitsString(prefix, path))
  {
    if prefix == "/" {
      assert "/" <= path;
    }
  }

  lemma {:induction false} AdmitsIsSegmentPrefix(prefix: string, path: string)
    requires prefix != []
    ensures AdmitsString(prefix, path) <==> Leads(RouteSegments(prefix), Split(path)) && path + "/" != prefix
  {
    var n := |prefix| - 1;
    if prefix[n] == '/' {
      assert prefix == prefix[..n] + "/";
      SlashedRoute(prefix[..n], path);
    } else {
      PlainRoute(prefix, path);
    }
  }

  lemma {:induction false} LastSegment(s: string)
    requires s != [] && s[|s| - 1] != '/'
    ensures Split(s)[|Split(s)| - 1] != ""
  {
    if |s| > 1 {
      assert s[1..][|s[1..]| - 1] == s[|s| - 1];
      LastSegment(s[1..]);
    }
  }

  // The case the segments alone do not tell: "/a/" admits "/a/" and "/a/b" but not "/a".
  lemma {:induction false} TrailingSlashIsStricter()
    ensures AllowsPath("/a/", "/a") == Ok(false) && Leads(RouteSegments("/a/"), Split("/a"))
  {
    var s := "/a";
    assert s + "/" == "/a/";
    SplitSlash(s);
    ShortPath();
    assert Lower("/a") == "/a";
    assert RouteSegments("/a/") == Split("/a");
  }

  lemma {:induction false} ShortPath()
    ensures Unquote("/a") == "/a" && Split("/a") == ["", "a"]
  {
    assert "/a"[1..] == "a" && "a"[1..] == "";
    assert Unquote("a") == "a";
    SlashSplits("a");
    SplitPrepend('a', "");
    assert ['/'] + "a" == "/a" && ['a'] + "" == "a";
  }

  // A path that is allowed stays in the route's subtree after decoding and dot removal.
  lemma {:induction false} NormalisedTargetStaysInSubtree(prefix: string, path: string)
    requires ValidatedPath(prefix).Ok? && ValidatedPath(path).Ok? && AllowsPath(prefix, path) == Ok(true)
    ensures Leads(RouteSegments(Unquote(prefix)), Split(RemoveDots(Unquote(path), "")))
  {
    AllowsPathIsSegmentPrefix(prefix, path);
    AcceptedExactly(prefix);
    AcceptedExactly(path);
    DecodedRoute(prefix);
    var n := |RouteSegments(prefix)|;
    assert Decoded(Split(path))[..n] == Decoded(Split(path)[..n]);
  }

  lemma {:induction false} DecodedRoute(prefix: string)
    requires Split(Unquote(prefix)) == Decoded(Split(prefix))
    ensures RouteSegments(Unquote(prefix)) == Decoded(RouteSegments(prefix))
  {
    DecodedTrim(Split(prefix));
  }

  // Dropping a final empty segment and decoding the segments may be done in either order.
  lemma {:induction false} DecodedTrim(a: seq<string>)
    requires a != []
    ensures Decoded(a) != [] && Trim(Decoded(a)) == Decoded(Trim(a))
  {
    var n := |a| - 1;
    UnquoteEmpty(a[n]);
    assert Decoded(a)[n] == Unquote(a[n]);
    assert Decoded(a)[..n] == Decoded(a[..n]);
  }

  lemma {:induction false} UnquoteEmpty(s: string)
    ensures Unquote(s) == "" <==> s == ""
  {
  }

  // ---------- destination policy ----------

  datatype Route = Route(origin: string, prefix: string)

  datatype Phase = Initial | Redirect

  datatype Policy = Policy(primary: Route, redirects: seq<Route>)

  function RouteAllows(route: Route, origin: string, path: string): bool {
    origin == route.origin && AllowsPath(route.prefix, path) == Ok(true)
  }

  // The origin and path of a parsed URL; an absent path is the root.
  function RequireTarget(policy: Policy, origin: string, rawPath: string, phase: Phase): Result<string> {
    var path := ValidatedPath(if rawPath == "" then "/" else rawPath);
    if path.Err? then Err(path.code)
    else if RouteAllows(policy.primary, origin, path.value) then Ok(origin)
    else if phase.Redirect? &&
      exists i :: 0 <= i < |policy.redirects| && RouteAllows(policy.redirects[i], origin, path.value)
    then Ok(origin)
    else Err(DestinationNotAllowed)
  }

  ghost predicate InReach(policy: Policy, route: Route, phase: Phase) {
    route == policy.primary || (phase.Redirect? && route in policy.redirects)
  }

  ghost predicate PolicyValid(policy: Policy) {
    ValidatedPath(policy.primary.prefix).Ok? && forall r :: r in policy.redirects ==> ValidatedPath(r.prefix).Ok?
  }

  ghost predicate InSubtree(route: Route, origin: string, path: string) {
    origin == route.origin && Leads(RouteSegments(route.prefix), Split(path)) && path + "/" != route.prefix
  }

  // A target is let through exactly when its path is accepted and a route in reach holds it in its subtree.
  lemma {:induction false} TargetsInReach(policy: Policy, origin: string, rawPath: string, phase: Phase)
    requires PolicyValid(policy)
    ensures
      var path := if rawPath == "" then "/" else rawPath;
      var reply := RequireTarget(policy, origin, rawPath, phase);
      && (reply.Ok? <==>
            ValidatedPath(path).Ok? && exists route :: InReach(policy, route, phase) && InSubtree(route, origin, path))
      && (reply.Ok? ==> reply.value == origin)
      && (ValidatedPath(path).Err? ==> reply == Err(ValidatedPath(path).code))
      && (ValidatedPath(path).Ok? && reply.Err? ==> reply.code == DestinationNotAllowed)
  {
    var path := if rawPath == "" then "/" else rawPath;
    if ValidatedPath(path).Ok? {
      forall route | InReach(policy, route, phase)
        ensures RouteAllows(route, origin, path) <==> InSubtree(route, origin, path)
      {
        AllowsPathIsSegmentPrefix(route.prefix, path);
      }
      assert InReach(policy, policy.primary, phase);
      if route :| InReach(policy, route, phase) && InSubtree(route, origin, path) {
        assert RouteAllows(route, origin, path);
      }
      if i :| 0 <= i < |policy.redirects| && RouteAllows(policy.redirects[i], origin, path) && phase.Redirect? {
        assert InReach(policy, policy.redirects[i], phase);
      }
    }
  }
}
