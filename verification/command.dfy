/**
 The child's shell command line: the `<command>` tokens joined with single
 spaces (`" ".join(tokens)`), handed to the shell as one string.
 */
module Command {

  /** `" ".join(tokens)`. */
  function Join(tokens: seq<string>): string
    decreases |tokens|
  {
    if |tokens| == 0 then ""
    else if |tokens| == 1 then tokens[0]
    else tokens[0] + " " + Join(tokens[1..])
  }

  /** `line.split(" ")`: the pieces between single spaces, empty pieces kept. */
  function Split(line: string): (pieces: seq<string>)
    ensures |pieces| > 0
    decreases |line|
  {
    if |line| == 0 then [""]
    else if line[0] == ' ' then [""] + Split(line[1..])
    else
      var rest := Split(line[1..]);
      [[line[0]] + rest[0]] + rest[1..]
  }

  predicate Unspaced(token: string) {
    ' ' !in token
  }

  /** Joining the pieces of a line gives the line back, for every line. */
  lemma {:induction false} JoinSplit(line: string)
    ensures Join(Split(line)) == line
    decreases |line|
  {
    if |line| > 0 {
      var rest := Split(line[1..]);
      JoinSplit(line[1..]);
      if line[0] == ' ' {
        assert ([""] + rest)[1..] == rest;
        assert Join([""] + rest) == "" + " " + Join(rest);
        assert line == [' '] + line[1..];
      } else {
        var pieces := [[line[0]] + rest[0]] + rest[1..];
        assert pieces[1..] == rest[1..];
        if |rest| == 1 {
          assert Join(rest) == rest[0];
        } else {
          assert Join(rest) == rest[0] + " " + Join(rest[1..]);
        }
        assert line == [line[0]] + line[1..];
      }
    }
  }

  lemma {:induction false} SplitUnspaced(token: string)
    requires Unspaced(token)
    ensures Split(token) == [token]
    decreases |token|
  {
    if |token| > 0 {
      SplitUnspaced(token[1..]);
      assert [token[0]] + token[1..] == token;
    }
  }

  lemma {:induction false} SplitAtFirstSpace(token: string, rest: string)
    requires Unspaced(token)
    ensures Split(token + " " + rest) == [token] + Split(rest)
    decreases |token|
  {
    var line := token + " " + rest;
    if |token| == 0 {
      assert line[1..] == rest;
    } else {
      assert line[1..] == token[1..] + " " + rest;
      SplitAtFirstSpace(token[1..], rest);
      assert [token[0]] + token[1..] == token;
    }
  }

  /**
   Space-free tokens are recovered, in order and verbatim, from the joined line:
   option-like tokens such as `--something` are passed through untouched.
   */
  lemma {:induction false} SplitJoin(tokens: seq<string>)
    requires |tokens| > 0
    requires forall i :: 0 <= i < |tokens| ==> Unspaced(tokens[i])
    ensures Split(Join(tokens)) == tokens
    decreases |tokens|
  {
    if |tokens| == 1 {
      SplitUnspaced(tokens[0]);
    } else {
      SplitJoin(tokens[1..]);
      SplitAtFirstSpace(tokens[0], Join(tokens[1..]));
      assert [tokens[0]] + tokens[1..] == tokens;
    }
  }

  /** The joined line is the tokens' characters plus one separator between each neighbouring pair. */
  function TotalLength(tokens: seq<string>): nat
    decreases |tokens|
  {
    if |tokens| == 0 then 0 else |tokens[0]| + TotalLength(tokens[1..])
  }

  lemma {:induction false} JoinLength(tokens: seq<string>)
    requires |tokens| > 0
    ensures |Join(tokens)| == TotalLength(tokens) + |tokens| - 1
    decreases |tokens|
  {
    if |tokens| > 1 {
      JoinLength(tokens[1..]);
    }
  }

  /** A token holding a space is not kept apart: the shell sees the same line as for two tokens. */
  lemma SpacedTokensMerge()
    ensures Join(["echo a"]) == Join(["echo", "a"])
  {
  }

  /** The command line of the repository's flag-passing example. */
  lemma OptionLikeTokensVerbatim()
    ensures Join(["echo", "--something", "more", "complicated"]) == "echo --something more complicated"
  {
  }
}
