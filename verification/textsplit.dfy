/** JavaScript's `String.prototype.split` with a one-character separator, and
    its inverse, joining segments back with that separator. */
module TextSplit {

  /** The segments of `s` between occurrences of `sep`, left to right. Like
      JavaScript, an empty string yields one empty segment and adjacent
      separators yield empty segments. */
  function Split(s: string, sep: char): (segments: seq<string>)
    ensures |segments| >= 1
    ensures forall i :: 0 <= i < |segments| ==> sep !in segments[i]
    ensures |segments| == 1 <==> sep !in s
    decreases |s|
  {
    if |s| == 0 then [""]
    else
      var rest := Split(s[1..], sep);
      if s[0] == sep then [""] + rest
      else [[s[0]] + rest[0]] + rest[1..]
  }

  /** The segments glued together with `sep` between consecutive ones. */
  function Join(segments: seq<string>, sep: char): string
    requires |segments| >= 1
    decreases |segments|
  {
    if |segments| == 1 then segments[0]
    else segments[0] + [sep] + Join(segments[1..], sep)
  }

  /** Splitting loses nothing: joining the segments restores the text. */
  lemma {:induction false} JoinSplit(s: string, sep: char)
    ensures Join(Split(s, sep), sep) == s
    decreases |s|
  {
    if |s| > 0 {
      JoinSplit(s[1..], sep);
      var rest := Split(s[1..], sep);
      if s[0] == sep {
        assert Split(s, sep)[1..] == rest;
        assert s == [sep] + s[1..];
      } else {
        var segs := Split(s, sep);
        assert segs[0] == [s[0]] + rest[0];
        if |rest| == 1 {
          assert s == [s[0]] + s[1..];
        } else {
          assert segs[1..] == rest[1..];
          assert Join(rest, sep) == rest[0] + [sep] + Join(rest[1..], sep);
          assert s == [s[0]] + s[1..];
        }
      }
    }
  }

  /** A separator-free prefix followed by the separator splits off as the
      first segment. */
  lemma {:induction false} SplitAfterSegment(w: string, t: string, sep: char)
    requires sep !in w
    ensures Split(w + [sep] + t, sep) == [w] + Split(t, sep)
    decreases |w|
  {
    var s := w + [sep] + t;
    if |w| == 0 {
      assert s[0] == sep && s[1..] == t;
    } else {
      assert s[0] == w[0] && s[1..] == w[1..] + [sep] + t;
      SplitAfterSegment(w[1..], t, sep);
      assert [w[0]] + w[1..] == w;
    }
  }

  /** Joining separator-free segments and splitting again gives the same
      segments back. */
  lemma {:induction false} SplitJoin(segments: seq<string>, sep: char)
    requires |segments| >= 1
    requires forall i :: 0 <= i < |segments| ==> sep !in segments[i]
    ensures Split(Join(segments, sep), sep) == segments
    decreases |segments|
  {
    if |segments| == 1 {
      var s := segments[0];
      var r := Split(s, sep);
      assert |r| == 1;
      JoinSplit(s, sep);
    } else {
      SplitJoin(segments[1..], sep);
      SplitAfterSegment(segments[0], Join(segments[1..], sep), sep);
      assert [segments[0]] + segments[1..] == segments;
    }
  }
}
