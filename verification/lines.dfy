/** `String.prototype.split("\n")` and `Array.prototype.join("\n")`, the two
    halves of the code preview in a list row. */
module Lines {

  /** Number of line feeds in `s`. */
  function NewlineCount(s: string): nat {
    if |s| == 0 then 0 else (if s[0] == '\n' then 1 else 0) + NewlineCount(s[1..])
  }

  /** `s.split("\n")`: the pieces between line feeds, in order.  There is
      always at least one piece: the empty string splits into [""] and a
      trailing line feed leaves an empty last piece. */
  function Split(s: string): (lines: seq<string>)
    ensures |lines| == NewlineCount(s) + 1
    ensures forall i :: 0 <= i < |lines| ==> '\n' !in lines[i]
  {
    if |s| == 0 then [""]
    else
      var rest := Split(s[1..]);
      if s[0] == '\n' then [""] + rest
      else [[s[0]] + rest[0]] + rest[1..]
  }

  /** `lines.join("\n")`: the pieces in order with a line feed between
      neighbours, so the text begins with the first piece and a line feed
      when there is a second. */
  function Join(lines: seq<string>): (s: string)
    ensures |lines| > 0 ==> |lines[0]| <= |s| && s[..|lines[0]|] == lines[0]
    ensures |lines| > 1 ==> |lines[0]| < |s| && s[|lines[0]|] == '\n'
  {
    if |lines| == 0 then ""
    else if |lines| == 1 then lines[0]
    else lines[0] + "\n" + Join(lines[1..])
  }

  /** Joining the pieces of a split gives back the original text. */
  lemma {:induction false} JoinSplit(s: string)
    ensures Join(Split(s)) == s
  {
    if |s| > 0 {
      var rest := Split(s[1..]);
      JoinSplit(s[1..]);
      if s[0] == '\n' {
        assert Split(s) == [""] + rest;
        assert ([""] + rest)[1..] == rest;
        assert s == "\n" + s[1..];
      } else {
        var lines := Split(s);
        assert lines[0] == [s[0]] + rest[0];
        if |rest| > 1 {
          assert lines[1..] == rest[1..];
          assert Join(rest) == rest[0] + "\n" + Join(rest[1..]);
        }
        assert s == [s[0]] + s[1..];
      }
    }
  }

  /** Splitting the join of line-feed-free pieces gives back the pieces. */
  lemma {:induction false} SplitJoin(lines: seq<string>)
    requires |lines| >= 1
    requires forall i :: 0 <= i < |lines| ==> '\n' !in lines[i]
    ensures Split(Join(lines)) == lines
  {
    if |lines| == 1 {
      SplitLine(lines[0]);
    } else {
      SplitJoin(lines[1..]);
      SplitPrefixedLine(lines[0], Join(lines[1..]));
      assert [lines[0]] + lines[1..] == lines;
    }
  }

  lemma {:induction false} SplitLine(line: string)
    requires '\n' !in line
    ensures Split(line) == [line]
  {
    if |line| > 0 {
      assert '\n' !in line[1..] by {
        forall i | 0 <= i < |line| - 1 ensures line[1..][i] != '\n' {
          assert line[1..][i] == line[i + 1];
        }
      }
      SplitLine(line[1..]);
      assert [line[0]] + line[1..] == line;
    }
  }

  /** A line-feed-free line followed by a line feed splits off as one piece. */
  lemma {:induction false} SplitPrefixedLine(line: string, rest: string)
    requires '\n' !in line
    ensures Split(line + "\n" + rest) == [line] + Split(rest)
  {
    var s := line + "\n" + rest;
    if |line| == 0 {
      assert s[1..] == rest;
    } else {
      assert s[1..] == line[1..] + "\n" + rest;
      assert '\n' !in line[1..] by {
        forall i | 0 <= i < |line| - 1 ensures line[1..][i] != '\n' {
          assert line[1..][i] == line[i + 1];
        }
      }
      SplitPrefixedLine(line[1..], rest);
      assert [line[0]] + line[1..] == line;
    }
  }

  /** Cutting a list of lines after its `k`-th element: the joined text is
      the joined head, a line feed, and the joined tail. */
  lemma {:induction false} JoinSplitsAt(lines: seq<string>, k: nat)
    requires 1 <= k < |lines|
    ensures Join(lines) == Join(lines[..k]) + "\n" + Join(lines[k..])
  {
    if k > 1 {
      JoinSplitsAt(lines[1..], k - 1);
      assert lines[1..][..k - 1] == lines[1..k];
      assert lines[1..][k - 1..] == lines[k..];
      assert lines[..k][1..] == lines[1..k];
    }
  }
}
