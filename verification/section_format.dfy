/** The message-formatting helpers of `internal/utils/section.go`. */
module SectionFormat {
  import opened Wrappers
  import opened Strings
  import opened Lists

  /** `chunks` is a split of `s` into non-empty pieces of at most `maxLen`
      elements, all but the last exactly `maxLen` long. */
  predicate IsChunking<T(==)>(chunks: seq<seq<T>>, s: seq<T>, maxLen: int) {
    && Concat(chunks) == s
    && (forall i :: 0 <= i < |chunks| ==> 0 < |chunks[i]| <= maxLen)
    && (forall i :: 0 <= i < |chunks| - 1 ==> |chunks[i]| == maxLen)
  }

  /** Reference split, taking `maxLen` elements off the front at a time. */
  function Chunks<T>(s: seq<T>, maxLen: int): seq<seq<T>>
    requires maxLen > 0
    decreases |s|
  {
    if |s| == 0 then []
    else if |s| <= maxLen then [s]
    else [s[..maxLen]] + Chunks(s[maxLen..], maxLen)
  }

  /** The chunking properties pin the split down: any chunking of `s` is `Chunks(s, maxLen)`. */
  lemma {:induction false} ChunkingIsUnique<T>(chunks: seq<seq<T>>, s: seq<T>, maxLen: int)
    requires maxLen > 0
    requires IsChunking(chunks, s, maxLen)
    ensures chunks == Chunks(s, maxLen)
    decreases |chunks|
  {
    if |chunks| == 0 {
    } else {
      var tail := chunks[1..];
      assert chunks == [chunks[0]] + tail;
      ConcatCons(chunks[0], tail);
      if |tail| == 0 {
        assert s == chunks[0];
      } else {
        var back := tail[..|tail| - 1];
        assert tail[|tail| - 1] == chunks[|chunks| - 1];
        assert |Concat(tail)| >= |tail[|tail| - 1]| > 0;
        assert |chunks[0]| == maxLen;
        assert s[..maxLen] == chunks[0];
        assert s[maxLen..] == Concat(tail);
        assert forall i :: 0 <= i < |tail| ==> tail[i] == chunks[i + 1];
        ChunkingIsUnique(tail, s[maxLen..], maxLen);
      }
    }
  }

  /** Go's `ChunkString` for a positive bound: splits `s` into pieces of at most
      `maxLen` elements. `ChunkWithAnyBound` covers the other bounds. */
  method ChunkString<T(==)>(s: seq<T>, maxLen: int) returns (chunks: seq<seq<T>>)
    requires maxLen > 0
    ensures Concat(chunks) == s
    ensures forall i :: 0 <= i < |chunks| ==> 0 < |chunks[i]| <= maxLen
    ensures forall i :: 0 <= i < |chunks| - 1 ==> |chunks[i]| == maxLen
    ensures |s| <= |chunks| * maxLen < |s| + maxLen
    ensures chunks == Chunks(s, maxLen)
  {
    chunks := [];
    var rest := s;
    while |rest| > maxLen
      invariant Concat(chunks) + rest == s
      invariant forall i :: 0 <= i < |chunks| ==> |chunks[i]| == maxLen
      invariant |chunks| * maxLen + |rest| == |s|
      decreases |rest|
    {
      ConcatAppend(chunks, rest[..maxLen]);
      assert rest[..maxLen] + rest[maxLen..] == rest;
      MulStep(|chunks|, maxLen);
      chunks := chunks + [rest[..maxLen]];
      rest := rest[maxLen..];
    }
    FinishChunks(chunks, rest, s, maxLen);
    if |rest| > 0 {
      chunks := chunks + [rest];
    }
    ChunkingIsUnique(chunks, s, maxLen);
  }

  /** Go's `ChunkString` on any bound. A zero bound returns no chunks for the
      empty string and loops forever on any other; a negative bound makes the
      first slice panic, even on the empty string. `None` stands for the loop
      that never ends and for the panic. */
  method ChunkWithAnyBound<T(==)>(s: seq<T>, maxLen: int) returns (r: Option<seq<seq<T>>>)
    ensures r.Some? <==> maxLen > 0 || (maxLen == 0 && |s| == 0)
    ensures maxLen == 0 && |s| == 0 ==> r == Some([])
    ensures maxLen > 0 ==> r == Some(Chunks(s, maxLen))
  {
    if maxLen > 0 {
      var chunks := ChunkString(s, maxLen);
      r := Some(chunks);
    } else if maxLen == 0 && |s| == 0 {
      r := Some([]);
    } else {
      r := None;
    }
  }

  lemma MulStep(k: nat, m: nat)
    ensures (k + 1) * m == k * m + m
  {
  }

  /** The piece left after the loop, if any, completes the chunking. */
  lemma FinishChunks<T>(chunks: seq<seq<T>>, rest: seq<T>, s: seq<T>, maxLen: int)
    requires maxLen > 0 && |rest| <= maxLen
    requires Concat(chunks) + rest == s
    requires forall i :: 0 <= i < |chunks| ==> |chunks[i]| == maxLen
    requires |chunks| * maxLen + |rest| == |s|
    ensures var r := if |rest| > 0 then chunks + [rest] else chunks;
      IsChunking(r, s, maxLen) && |s| <= |r| * maxLen < |s| + maxLen
  {
    if |rest| > 0 {
      ConcatAppend(chunks, rest);
      MulStep(|chunks|, maxLen);
    } else {
      assert rest == [];
      assert Concat(chunks) == s;
    }
  }

  /** Go's `strings.ReplaceAll(s, "\n", " ")`: every newline becomes a space. */
  function ReplaceNewlines(s: string): (r: string)
    ensures |r| == |s|
    ensures forall i :: 0 <= i < |s| ==> r[i] == (if s[i] == '\n' then ' ' else s[i])
    ensures '\n' !in r
    decreases |s|
  {
    if |s| == 0 then ""
    else (if s[0] == '\n' then " " else [s[0]]) + ReplaceNewlines(s[1..])
  }

  /** Go's `WriteLine`: a quoted bold-label line, or nothing for a blank value. */
  function WriteLine(caption: string, value: string): (r: string)
    ensures r == "" <==> IsBlank(value)
    ensures !IsBlank(value) ==> r == "> **" + caption + "**: " + ReplaceNewlines(value) + "\n"
  {
    if TrimSpace(value) == "" then ""
    else "> **" + caption + "**: " + ReplaceNewlines(value) + "\n"
  }

  /** A non-empty `WriteLine` result is one line: its only newline is the last
      character, the value keeps its length, and only newlines in it differ. */
  lemma WriteLineIsOneLine(caption: string, value: string)
    requires '\n' !in caption
    requires !IsBlank(value)
    ensures var r := WriteLine(caption, value);
      && |r| == |caption| + |value| + 9
      && r[|r| - 1] == '\n'
      && (forall i :: 0 <= i < |r| - 1 ==> r[i] != '\n')
      && (forall i :: 0 <= i < |value| && value[i] != '\n' ==> r[|caption| + 8 + i] == value[i])
  {
    var r := WriteLine(caption, value);
    var v := ReplaceNewlines(value);
    var body := "> **" + caption + "**: " + v;
    assert r == body + "\n";
    assert '\n' !in body;
    assert r[..|r| - 1] == body;
    assert forall i :: 0 <= i < |r| - 1 ==> r[i] == body[i];
    assert body[|caption| + 8..] == v;
  }

  /** Go's `WriteTitle`: the title in bold on its own line, or nothing when blank. */
  function WriteTitle(title: string): (r: string)
    ensures r == "" <==> IsBlank(title)
    ensures !IsBlank(title) ==> |r| == |title| + 5 && HasPrefix(r, "**") && HasSuffix(r, "**\n")
    ensures !IsBlank(title) ==> r[2..|r| - 3] == title
  {
    if TrimSpace(title) == "" then "" else "**" + title + "**\n"
  }
}
