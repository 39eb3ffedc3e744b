/** `paths.js`: splitting a slash-separated path into its segments,
    joining paths, normalizing a path and taking its parent. */
module Paths {
  import opened Wrappers

  /** The error `makeInvalidPathError` builds. */
  datatype PathError = PathError(name: string, message: string)

  /** `makeInvalidPathError`: an `InvalidPath` error about `path`. */
  function MakeInvalidPathError(path: string): (error: PathError)
    ensures error.name == "InvalidPath"
    ensures |error.message| == 14 + |path| && error.message[14..] == path
    ensures error.message[..14] == "Invalid Path: "
  {
    PathError("InvalidPath", "Invalid Path: " + path)
  }

  // *** The host's string and array operations

  /** `path.split("/")`: the pieces between the slashes, one more than
      there are slashes. */
  function Tokens(path: string): (tokens: seq<string>)
    ensures |tokens| >= 1
    ensures forall i :: 0 <= i < |tokens| ==> '/' !in tokens[i]
  {
    if path == [] then [""]
    else
      var rest := Tokens(path[1..]);
      if path[0] == '/' then [""] + rest
      else [[path[0]] + rest[0]] + rest[1..]
  }

  /** `parts.join("/")`. */
  function Joined(parts: seq<string>): string
  {
    if parts == [] then ""
    else if |parts| == 1 then parts[0]
    else parts[0] + "/" + Joined(parts[1..])
  }

  /** Joining the pieces of a split gives back the string. */
  lemma {:induction false} JoinedTokens(path: string)
    ensures Joined(Tokens(path)) == path
  {
    if path != [] {
      JoinedTokens(path[1..]);
      var rest := Tokens(path[1..]);
      if path[0] == '/' {
        assert path == "/" + path[1..];
      } else {
        if |rest| == 1 {
          assert path == [path[0]] + rest[0];
        } else {
          assert Joined(rest) == rest[0] + "/" + Joined(rest[1..]);
          assert Joined([[path[0]] + rest[0]] + rest[1..]) == [path[0]] + rest[0] + "/" + Joined(rest[1..]) by {
            assert ([[path[0]] + rest[0]] + rest[1..])[1..] == rest[1..];
          }
          assert path == [path[0]] + path[1..];
        }
      }
    }
  }

  /** Splitting pieces that hold no slash, once joined, gives back the
      pieces. */
  lemma {:induction false} TokensJoined(parts: seq<string>)
    requires |parts| >= 1
    requires forall i :: 0 <= i < |parts| ==> '/' !in parts[i]
    ensures Tokens(Joined(parts)) == parts
  {
    if |parts| == 1 {
      PieceTokens(parts[0]);
    } else {
      TokensJoined(parts[1..]);
      TokensAround(parts[0], Joined(parts[1..]));
    }
  }

  /** A piece without a slash splits to itself. */
  lemma {:induction false} PieceTokens(piece: string)
    requires '/' !in piece
    ensures Tokens(piece) == [piece]
  {
    if piece != [] {
      PieceTokens(piece[1..]);
      assert piece == [piece[0]] + piece[1..];
    }
  }

  /** A slash after a piece without one starts a new piece. */
  lemma {:induction false} TokensAround(piece: string, rest: string)
    requires '/' !in piece
    ensures Tokens(piece + "/" + rest) == [piece] + Tokens(rest)
  {
    if piece == [] {
      assert piece + "/" + rest == "/" + rest;
      assert ("/" + rest)[1..] == rest;
    } else {
      TokensAround(piece[1..], rest);
      assert (piece + "/" + rest)[1..] == piece[1..] + "/" + rest;
      assert [piece[0]] + piece[1..] == piece;
    }
  }

  // *** split

  /** How many empty pieces the split starts with: one per leading
      slash. */
  function LeadingRun(tokens: seq<string>): (run: nat)
    ensures run <= |tokens|
    ensures forall i :: 0 <= i < run ==> tokens[i] == ""
    ensures run == |tokens| || tokens[run] != ""
  {
    if tokens != [] && tokens[0] == "" then 1 + LeadingRun(tokens[1..]) else 0
  }

  /** The non-empty pieces, in order. */
  function DropEmpty(tokens: seq<string>): seq<string>
  {
    if tokens == [] then []
    else
      var last := tokens[|tokens| - 1];
      DropEmpty(tokens[..|tokens| - 1]) + (if last == "" then [] else [last])
  }

  /** One more piece: kept when it is not empty. */
  lemma DropEmptyAppend(tokens: seq<string>, token: string)
    ensures DropEmpty(tokens + [token]) == DropEmpty(tokens) + (if token == "" then [] else [token])
  {
    assert (tokens + [token])[..|tokens|] == tokens;
  }

  /** What is kept is non-empty and comes from the pieces. */
  lemma {:induction false} DropEmptyKeeps(tokens: seq<string>)
    ensures forall i :: 0 <= i < |DropEmpty(tokens)| ==>
              DropEmpty(tokens)[i] != "" && DropEmpty(tokens)[i] in tokens
  {
    if tokens != [] {
      var front := tokens[..|tokens| - 1];
      DropEmptyKeeps(front);
      assert forall t :: t in front ==> t in tokens;
    }
  }

  /** What `paths.split` returns for the pieces of a path: the leading
      empty pieces, then every non-empty piece. */
  function SplitTokens(tokens: seq<string>): seq<string>
  {
    var run := LeadingRun(tokens);
    tokens[..run] + DropEmpty(tokens[run..])
  }

  /** `paths.split` as a value. */
  function SplitPath(path: string): seq<string>
  {
    SplitTokens(Tokens(path))
  }

  /** What `split` returns is never empty, has no slash in a segment and
      no empty segment after a non-empty one. */
  lemma SplitPathShape(path: string)
    ensures var segments := SplitPath(path);
            && |segments| >= 1 && Normal(segments)
            && (forall i :: 0 <= i < |segments| ==> '/' !in segments[i])
  {
    SplitShape(Tokens(path));
  }

  /** The form `paths.split` leaves segments in: no empty segment after a
      non-empty one. */
  predicate Normal(segments: seq<string>)
  {
    forall i, j :: 0 <= i < j < |segments| && segments[i] != "" ==> segments[j] != ""
  }

  /** Splitting pieces without a slash leaves at least one segment, none
      with a slash, in normal form. */
  lemma SplitShape(tokens: seq<string>)
    requires |tokens| >= 1 && forall i :: 0 <= i < |tokens| ==> '/' !in tokens[i]
    ensures var segments := SplitTokens(tokens);
            && |segments| >= 1 && Normal(segments)
            && (forall i :: 0 <= i < |segments| ==> '/' !in segments[i])
  {
    var run := LeadingRun(tokens);
    var kept := DropEmpty(tokens[run..]);
    var segments := tokens[..run] + kept;
    DropEmptyKeeps(tokens[run..]);
    if run == 0 {
      assert tokens[0] != "";
      KeptFirst(tokens);
    }
    forall i | 0 <= i < |segments|
      ensures '/' !in segments[i]
    {
      if i >= run {
        assert segments[i] == kept[i - run];
      }
    }
  }

  /** Pieces starting with a non-empty one keep at least that one. */
  lemma {:induction false} KeptFirst(tokens: seq<string>)
    requires |tokens| >= 1 && tokens[0] != ""
    ensures |DropEmpty(tokens)| >= 1
  {
    if |tokens| > 1 {
      KeptFirst(tokens[..|tokens| - 1]);
      assert tokens[..|tokens| - 1][0] == tokens[0];
    }
  }

  /** Non-empty pieces are all kept. */
  lemma {:induction false} DropNothing(tokens: seq<string>)
    requires forall i :: 0 <= i < |tokens| ==> tokens[i] != ""
    ensures DropEmpty(tokens) == tokens
  {
    if tokens != [] {
      DropNothing(tokens[..|tokens| - 1]);
    }
  }

  /** Segments already in normal form split to themselves. */
  lemma SplitOfNormal(segments: seq<string>)
    requires Normal(segments)
    ensures SplitTokens(segments) == segments
  {
    var run := LeadingRun(segments);
    if run < |segments| {
      forall i | 0 <= i < |segments[run..]|
        ensures segments[run..][i] != ""
      {
        assert segments[run] != "";
      }
    }
    DropNothing(segments[run..]);
  }

  /** `paths.split`: the leading empty pieces kept, and only the
      non-empty pieces after them. */
  method Split(path: string) returns (result: seq<string>)
    ensures result == SplitPath(path)
  {
    var tokens := Tokens(path);
    ghost var run := LeadingRun(tokens);
    result := [];
    var index := 0;
    while index < |tokens| && tokens[index] == ""
      invariant index <= run && result == tokens[..index]
    {
      result := result + [tokens[index]];
      index := index + 1;
    }
    result := KeepNonEmpty(result, tokens, index);
  }

  /** The second loop of `paths.split`: from `start` on, every non-empty
      piece pushed, in order. */
  method KeepNonEmpty(before: seq<string>, tokens: seq<string>, start: nat) returns (result: seq<string>)
    requires start <= |tokens|
    ensures result == before + DropEmpty(tokens[start..])
  {
    ghost var rest := tokens[start..];
    result := before;
    var index := start;
    while index < |tokens|
      invariant start <= index <= |tokens|
      invariant result == before + DropEmpty(rest[..index - start])
    {
      var token := tokens[index];
      assert rest[..index + 1 - start] == rest[..index - start] + [token];
      DropEmptyAppend(rest[..index - start], token);
      if token != "" {
        result := result + [token];
      }
      index := index + 1;
    }
    assert rest[..index - start] == rest;
  }

  // *** normalize

  /** `paths.normalize` as a value. */
  function NormalizePath(path: string): string
  {
    Joined(SplitPath(path))
  }

  /** The segments of a normalized path are the segments of the path. */
  lemma SplitOfNormalized(path: string)
    ensures SplitPath(NormalizePath(path)) == SplitPath(path)
  {
    SplitPathShape(path);
    SplitOfJoined(SplitPath(path));
  }

  /** Normalizing a normalized path changes nothing. */
  lemma NormalizeIdempotent(path: string)
    ensures NormalizePath(NormalizePath(path)) == NormalizePath(path)
  {
    SplitOfNormalized(path);
  }

  /** `paths.normalize`: the segments joined by single slashes. */
  method Normalize(path: string) returns (normal: string)
    ensures normal == NormalizePath(path)
  {
    var segments := Split(path);
    normal := Joined(segments);
  }

  // *** join

  /** The segments `paths.join` gathers: each argument split, with an
      argument that is exactly "/" read as "". */
  function Segments(arguments: seq<string>): seq<string>
  {
    if arguments == [] then []
    else
      var last := arguments[|arguments| - 1];
      Segments(arguments[..|arguments| - 1]) + SplitPath(if last == "/" then "" else last)
  }

  /** One more argument adds its own segments. */
  lemma SegmentsStep(arguments: seq<string>, index: nat)
    requires index < |arguments|
    ensures var argument := arguments[index];
            Segments(arguments[..index + 1]) == Segments(arguments[..index]) + SplitPath(if argument == "/" then "" else argument)
  {
    assert arguments[..index + 1][..index] == arguments[..index];
  }

  /** The inner loop of `paths.join`: every token pushed, in order. */
  method PushAll(segments: seq<string>, tokens: seq<string>) returns (result: seq<string>)
    ensures result == segments + tokens
  {
    result := segments;
    for index := 0 to |tokens|
      invariant result == segments + tokens[..index]
    {
      assert tokens[..index + 1] == tokens[..index] + [tokens[index]];
      result := result + [tokens[index]];
    }
    assert tokens[..|tokens|] == tokens;
  }

  /** `paths.join` as a value. */
  function JoinPaths(arguments: seq<string>): string
  {
    NormalizePath(Joined(Segments(arguments)))
  }

  /** `paths.join`: every argument's segments gathered in order, joined
      and normalized. */
  method Join(arguments: seq<string>) returns (path: string)
    ensures path == JoinPaths(arguments)
  {
    var segments: seq<string> := [];
    for index := 0 to |arguments|
      invariant segments == Segments(arguments[..index])
    {
      var argument := arguments[index];
      if argument == "/" {
        argument := "";
      }
      var tokens := Split(argument);
      SegmentsStep(arguments, index);
      segments := PushAll(segments, tokens);
    }
    assert arguments[..|arguments|] == arguments;
    path := Normalize(Joined(segments));
  }

  // *** parent

  /** `paths.parent` as a value: the path without its last segment, "/"
      when only the root is left, and an `InvalidPath` error for a path
      with no segment to drop. */
  function ParentOf(path: string): Result<string, PathError>
  {
    SplitPathShape(path);
    var segments := SplitPath(path);
    if segments == [""] || segments == ["", ""] then
      Failure(MakeInvalidPathError("parent(\"" + path + "\")"))
    else
      var kept := segments[..|segments| - 1];
      if kept == [""] then Success("/") else Success(Joined(kept))
  }

  /** `paths.parent`. */
  method Parent(path: string) returns (result: Result<string, PathError>)
    ensures result == ParentOf(path)
  {
    var segments := Split(path);
    SplitPathShape(path);
    if (|segments| == 1 && segments[0] == "") || (|segments| == 2 && segments[0] == "" && segments[1] == "") {
      return Failure(MakeInvalidPathError("parent(\"" + path + "\")"));
    }
    segments := segments[..|segments| - 1];
    if |segments| == 1 && segments[0] == "" {
      return Success("/");
    }
    return Success(Joined(segments));
  }

  /** `parent` fails exactly for the empty path and the root, and any
      other path with one segment or less of content. */
  lemma ParentFails(path: string)
    ensures ParentOf(path).Failure? <==> SplitPath(path) == [""] || SplitPath(path) == ["", ""]
    ensures ParentOf("").Failure? && ParentOf("/").Failure?
  {
    RootSplits();
  }

  /** The empty path and the root split to one and two empty segments. */
  lemma RootSplits()
    ensures SplitPath("") == [""] && SplitPath("/") == ["", ""]
  {
    assert Tokens("") == [""];
    assert Tokens("/") == ["", ""];
    assert LeadingRun(["", ""]) == 2;
  }

  /** Segments in normal form, once joined, split back to themselves. */
  lemma SplitOfJoined(segments: seq<string>)
    requires |segments| >= 1 && Normal(segments)
    requires forall i :: 0 <= i < |segments| ==> '/' !in segments[i]
    ensures SplitPath(Joined(segments)) == segments
  {
    TokensJoined(segments);
    SplitOfNormal(segments);
  }

  /** The segments `join` gathers from two arguments. */
  lemma SegmentsOfPair(first: string, second: string)
    ensures Segments([first, second])
            == SplitPath(if first == "/" then "" else first) + SplitPath(if second == "/" then "" else second)
  {
    assert [first, second][..1] == [first];
    assert [first][..0] == [];
    assert Segments([first]) == SplitPath(if first == "/" then "" else first);
  }

  /** For a path of two segments or more starting with at most one slash,
      joining the parent with the last segment gives the normalized
      path back. */
  lemma ParentJoinRoundTrip(path: string)
    requires |SplitPath(path)| >= 2 && SplitPath(path)[1] != ""
    ensures var segments := SplitPath(path);
            && ParentOf(path).Success?
            && JoinPaths([ParentOf(path).value, segments[|segments| - 1]]) == NormalizePath(path)
  {
    var segments := SplitPath(path);
    SplitPathShape(path);
    ParentThenLast(path);
    SplitOfJoined(segments);
  }

  /** The parent and the last segment gather back to the segments of
      the path. */
  lemma ParentThenLast(path: string)
    requires |SplitPath(path)| >= 2 && SplitPath(path)[1] != ""
    ensures var segments := SplitPath(path);
            && ParentOf(path).Success?
            && Segments([ParentOf(path).value, segments[|segments| - 1]]) == segments
  {
    var segments := SplitPath(path);
    var n := |segments|;
    var last := segments[n - 1];
    assert SplitPath(last) == [last] && last != "/" by {
      SplitPathShape(path);
      assert last != "" && '/' !in last;
      SplitOfJoined([last]);
      assert Joined([last]) == last;
    }
    ParentSegments(path);
    SegmentsOfPair(ParentOf(path).value, last);
    FrontAndLast(segments);
  }

  /** A non-empty sequence is its front followed by its last entry. */
  lemma FrontAndLast<T>(s: seq<T>)
    requires |s| >= 1
    ensures s == s[..|s| - 1] + [s[|s| - 1]]
  {
  }

  /** The parent, as `join` reads it, splits to every segment of the
      path but the last. */
  lemma ParentSegments(path: string)
    requires |SplitPath(path)| >= 2 && SplitPath(path)[1] != ""
    ensures var segments := SplitPath(path);
            && ParentOf(path).Success?
            && var parent := ParentOf(path).value;
               SplitPath(if parent == "/" then "" else parent) == segments[..|segments| - 1]
  {
    var segments := SplitPath(path);
    SplitPathShape(path);
    var kept := segments[..|segments| - 1];
    RootSplits();
    if kept != [""] {
      assert kept != ["", ""];
      SplitOfJoined(kept);
    }
  }
}
