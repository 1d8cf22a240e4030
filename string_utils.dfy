/**
 * String helpers: the character-class check used against SQL injection, and
 * the construction and truncation of `/`-separated file paths. Path
 * normalisation is a parameter (`normalize`), since it belongs to a library
 * outside this model.
 */
module StringUtilities {
  import opened Options

  /** The file separator; fixed to `/`. */
  const Separator: char := '/'

  /** The characters of the class `[a-zA-Z0-9-_]`. */
  predicate IsPatternChar(c: char)
  {
    ('a' <= c <= 'z') || ('A' <= c <= 'Z') || ('0' <= c <= '9') || c == '-' || c == '_'
  }

  /** Scans the string for a character outside the class. */
  function AllPatternChars(s: string): (b: bool)
    ensures b <==> forall i :: 0 <= i < |s| ==> IsPatternChar(s[i])
  {
    s == [] || (IsPatternChar(s[0]) && AllPatternChars(s[1..]))
  }

  /**
   * `isAlphaNumeric`: true for null; otherwise the whole string must match
   * `^[a-zA-Z0-9-_]+$`, so it needs at least one character and none outside
   * the class.
   */
  function IsAlphaNumeric(value: Option<string>): (b: bool)
    ensures value == None ==> b
    ensures value == Some("") ==> !b
    ensures value.Some? ==> (b <==> |value.value| > 0 && forall i :: 0 <= i < |value.value| ==> IsPatternChar(value.value[i]))
  {
    match value
    case None => true
    case Some(s) => |s| > 0 && AllPatternChars(s)
  }

  /** Java's `Character.isWhitespace`. */
  predicate IsWhitespace(c: char)
  {
    var n := c as int;
    (0x09 <= n <= 0x0D) || (0x1C <= n <= 0x20) || n == 0x1680
    || (0x2000 <= n <= 0x2006) || (0x2008 <= n <= 0x200A)
    || n == 0x2028 || n == 0x2029 || n == 0x205F || n == 0x3000
  }

  /** `isBlank`: null, empty, or whitespace only. */
  predicate IsBlank(value: Option<string>)
  {
    match value
    case None => true
    case Some(s) => forall i :: 0 <= i < |s| ==> IsWhitespace(s[i])
  }

  /** Whether a string holds the separator. */
  predicate HasSeparator(s: string)
  {
    Separator in s
  }

  /** The position of the first separator. */
  function FirstSeparator(s: string): (i: nat)
    requires HasSeparator(s)
    ensures i < |s| && s[i] == Separator && !HasSeparator(s[..i])
  {
    if s[0] == Separator then 0
    else
      assert HasSeparator(s[1..]) by {
        var k :| 0 <= k < |s| && s[k] == Separator;
        assert s[1..][k - 1] == Separator;
      }
      var j := FirstSeparator(s[1..]);
      assert s[..j + 1] == [s[0]] + s[1..][..j];
      j + 1
  }

  /** The pieces between separators, empty ones included. */
  function Segments(s: string): (parts: seq<string>)
    ensures |parts| >= 1
    ensures forall k :: 0 <= k < |parts| ==> !HasSeparator(parts[k])
    decreases |s|
  {
    if !HasSeparator(s) then [s]
    else
      var i := FirstSeparator(s);
      [s[..i]] + Segments(s[i + 1..])
  }

  /** The pieces joined with the separator between each two. */
  function Join(parts: seq<string>): string
    requires |parts| >= 1
  {
    if |parts| == 1 then parts[0] else parts[0] + [Separator] + Join(parts[1..])
  }

  /** Joining the pieces of a string gives the string back. */
  lemma {:induction false} JoinSegments(s: string)
    ensures Join(Segments(s)) == s
    decreases |s|
  {
    if HasSeparator(s) {
      var i := FirstSeparator(s);
      var head, rest := s[..i], s[i + 1..];
      var tail := Segments(rest);
      assert Segments(s) == [head] + tail;
      JoinSegments(rest);
      JoinCons(head, tail);
      SplitAround(s, i);
    }
  }

  /** A string is the part before a position, the character there, and the part after. */
  lemma SplitAround(s: string, i: nat)
    requires i < |s|
    ensures s[..i] + [s[i]] + s[i + 1..] == s
  {
  }

  /** Joining a piece in front of others puts a separator after it. */
  lemma JoinCons(head: string, rest: seq<string>)
    requires |rest| >= 1
    ensures Join([head] + rest) == head + [Separator] + Join(rest)
  {
  }

  /** Splitting a join of separator-free pieces gives the pieces back. */
  lemma {:induction false} SegmentsJoin(parts: seq<string>)
    requires |parts| >= 1
    requires forall k :: 0 <= k < |parts| ==> !HasSeparator(parts[k])
    ensures Segments(Join(parts)) == parts
  {
    if |parts| > 1 {
      var head, tail := parts[0], parts[1..];
      assert parts == [head] + tail;
      JoinCons(head, tail);
      SeparatorAfter(head, Join(tail));
      SegmentsJoin(tail);
    }
  }

  /** The first separator of `head + "/" + rest` is the one after a separator-free `head`. */
  lemma SeparatorAfter(head: string, rest: string)
    requires !HasSeparator(head)
    ensures Segments(head + [Separator] + rest) == [head] + Segments(rest)
  {
    var s := head + [Separator] + rest;
    assert s[|head|] == Separator;
    var i := FirstSeparator(s);
    assert s[..|head|] == head;
    assert i == |head|;
    assert s[i + 1..] == rest;
  }

  /** Drops the empty strings at the end. */
  function DropTrailingEmpty(parts: seq<string>): (r: seq<string>)
    ensures |r| <= |parts| && r == parts[..|r|]
    ensures r != [] ==> r[|r| - 1] != ""
    ensures forall k :: |r| <= k < |parts| ==> parts[k] == ""
  {
    if parts == [] then []
    else if parts[|parts| - 1] == "" then DropTrailingEmpty(parts[..|parts| - 1])
    else parts
  }

  /**
   * Java's `split` on the separator: the whole string when it holds no
   * separator, otherwise its pieces with the trailing empty ones dropped.
   */
  function Split(s: string): (parts: seq<string>)
    ensures forall k :: 0 <= k < |parts| ==> !HasSeparator(parts[k])
    ensures s != "" && parts != [] ==> parts[|parts| - 1] != ""
  {
    if !HasSeparator(s) then [s] else DropTrailingEmpty(Segments(s))
  }

  /** Each segment preceded by the separator, concatenated. */
  function Prefixed(segments: seq<string>): string
  {
    if segments == [] then ""
    else Prefixed(segments[..|segments| - 1]) + [Separator] + segments[|segments| - 1]
  }

  /** Each part followed by the separator, concatenated. */
  function Terminated(parts: seq<string>): string
  {
    if parts == [] then ""
    else Terminated(parts[..|parts| - 1]) + parts[|parts| - 1] + [Separator]
  }

  /** Prefixing each segment is joining them after an empty first piece. */
  lemma {:induction false} PrefixedIsJoin(segments: seq<string>)
    ensures Prefixed(segments) == Join([""] + segments)
  {
    if segments != [] {
      var init := segments[..|segments| - 1];
      var last := segments[|segments| - 1];
      PrefixedIsJoin(init);
      JoinSnoc([""] + init, last);
      assert [""] + segments == ([""] + init) + [last];
    }
  }

  /** Terminating each part is joining them with an empty last piece. */
  lemma {:induction false} TerminatedIsJoin(parts: seq<string>)
    ensures Terminated(parts) == Join(parts + [""])
  {
    if parts != [] {
      var init := parts[..|parts| - 1];
      var last := parts[|parts| - 1];
      TerminatedIsJoin(init);
      JoinSnoc(init + [""], "");
      JoinSnoc(init + [last], "");
      JoinLastChanged(init, last);
      assert parts == init + [last];
    }
  }

  /** Appending a piece appends the separator and the piece. */
  lemma {:induction false} JoinSnoc(parts: seq<string>, last: string)
    requires |parts| >= 1
    ensures Join(parts + [last]) == Join(parts) + [Separator] + last
  {
    if |parts| > 1 {
      assert (parts + [last])[1..] == parts[1..] + [last];
      JoinSnoc(parts[1..], last);
    }
  }

  /** Replacing an empty last piece by `last` appends `last` to the join. */
  lemma {:induction false} JoinLastChanged(init: seq<string>, last: string)
    ensures Join(init + [last]) == Join(init + [""]) + last
  {
    if init != [] {
      assert (init + [last])[1..] == init[1..] + [last];
      assert (init + [""])[1..] == init[1..] + [""];
      JoinLastChanged(init[1..], last);
    }
  }

  /**
   * A path built from a tail splits back into an empty first piece followed by
   * exactly the tail's segments.
   */
  lemma TailSplitsBack(segments: seq<string>)
    requires segments != [] && segments[|segments| - 1] != ""
    requires forall k :: 0 <= k < |segments| ==> !HasSeparator(segments[k])
    ensures Split(Prefixed(segments)) == [""] + segments
  {
    PrefixedIsJoin(segments);
    SegmentsJoin([""] + segments);
    var s := Prefixed(segments);
    assert s[0] == Separator by {
      assert Join([""] + segments) == "" + [Separator] + Join(segments);
    }
  }

  /**
   * A path built by `constructFilePath` (before normalisation) splits into the
   * parts followed by one empty piece.
   */
  lemma TerminatedSplitsBack(parts: seq<string>)
    requires forall k :: 0 <= k < |parts| ==> !HasSeparator(parts[k])
    ensures Segments(Terminated(parts)) == parts + [""]
  {
    TerminatedIsJoin(parts);
    SegmentsJoin(parts + [""]);
  }

  /** Extending a run of segments by one appends the separator and that segment. */
  lemma PrefixedSnoc(segments: seq<string>, start: nat, i: nat)
    requires start <= i < |segments|
    ensures Prefixed(segments[start..i + 1]) == Prefixed(segments[start..i]) + [Separator] + segments[i]
  {
    assert segments[start..i + 1][..i - start] == segments[start..i];
  }

  /** The last `count` segments; none when `count` is not positive. */
  function Tail(segments: seq<string>, count: int): (t: seq<string>)
    requires count <= |segments|
    ensures |t| == if count <= 0 then 0 else count
    ensures t == segments[|segments| - |t|..]
  {
    if count <= 0 then [] else segments[|segments| - count..]
  }

  /**
   * `constructFilePath`: every part in order, each followed by the separator,
   * then normalised. The normaliser answers None for Java `null` (a `..` with
   * nothing left to climb above), and that null is what the caller gets.
   */
  method ConstructFilePath(parts: seq<string>, normalize: string -> Option<string>) returns (path: Option<string>)
    ensures path == normalize(Terminated(parts))
  {
    var sb := "";
    for i := 0 to |parts|
      invariant sb == Terminated(parts[..i])
    {
      assert parts[..i + 1][..i] == parts[..i];
      sb := sb + parts[i] + [Separator];
    }
    assert parts[..|parts|] == parts;
    path := normalize(sb);
  }

  /**
   * `getFilePathTail`: a blank path, or one with at most `numberOfSegments`
   * segments, comes back unchanged; otherwise the last `numberOfSegments`
   * segments, each preceded by the separator, then normalised, which may give
   * null.
   */
  method GetFilePathTail(filePath: Option<string>, numberOfSegments: int, normalize: string -> Option<string>) returns (r: Option<string>)
    ensures IsBlank(filePath) ==> r == filePath
    ensures !IsBlank(filePath) && |Split(filePath.value)| <= numberOfSegments ==> r == filePath
    ensures !IsBlank(filePath) && |Split(filePath.value)| > numberOfSegments ==>
      r == normalize(Prefixed(Tail(Split(filePath.value), numberOfSegments)))
  {
    if IsBlank(filePath) {
      return filePath;
    }
    var segments := Split(filePath.value);
    if |segments| <= numberOfSegments {
      return filePath;
    }
    var sb := "";
    var start := |segments| - numberOfSegments;
    var i := start;
    while i < |segments|
      invariant start <= |segments| ==> start <= i <= |segments| && sb == Prefixed(segments[start..i])
      invariant start > |segments| ==> i == start && sb == ""
    {
      PrefixedSnoc(segments, start, i);
      sb := sb + [Separator] + segments[i];
      i := i + 1;
    }
    if start <= |segments| {
      assert segments[start..i] == Tail(segments, numberOfSegments);
    }
    r := normalize(sb);
  }
}
