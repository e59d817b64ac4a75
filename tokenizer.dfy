/**
 * The command-line tokenizer: trimming the spaces around a line and splitting it
 * into space-separated words.
 */
module Tokenizer {

  predicate IsBlank(t: string) {
    forall i :: 0 <= i < |t| ==> t[i] == ' '
  }

  predicate NoSpace(t: string) {
    forall i :: 0 <= i < |t| ==> t[i] != ' '
  }

  // ---------------------------------------------------------------------------
  // Trimming
  // ---------------------------------------------------------------------------

  function TrimLeft(s: string): string
    decreases |s|
  {
    if s != [] && s[0] == ' ' then TrimLeft(s[1..]) else s
  }

  function TrimRight(s: string): string
    decreases |s|
  {
    if s != [] && s[|s| - 1] == ' ' then TrimRight(s[..|s| - 1]) else s
  }

  /** `s` without its leading and trailing spaces. */
  function Trimmed(s: string): string {
    TrimRight(TrimLeft(s))
  }

  /**
   * The trimmed line is a slice of the line with only spaces around it, and it
   * neither starts nor ends with a space.
   */
  lemma {:induction false} TrimmedShape(s: string) returns (i: nat, j: nat)
    ensures i <= j <= |s| && Trimmed(s) == s[i..j]
    ensures IsBlank(s[..i]) && IsBlank(s[j..])
    ensures Trimmed(s) == "" || (Trimmed(s)[0] != ' ' && Trimmed(s)[|Trimmed(s)| - 1] != ' ')
  {
    i := TrimLeftShape(s);
    var k := TrimRightShape(s[i..]);
    j := i + k;
    assert s[i..][..k] == s[i..j];
    assert s[i..][k..] == s[j..];
    if Trimmed(s) != "" {
      assert Trimmed(s)[0] == TrimLeft(s)[0];
    }
  }

  lemma {:induction false} TrimLeftShape(s: string) returns (i: nat)
    ensures i <= |s| && TrimLeft(s) == s[i..] && IsBlank(s[..i])
    ensures TrimLeft(s) == "" || TrimLeft(s)[0] != ' '
    decreases |s|
  {
    if s != [] && s[0] == ' ' {
      var k := TrimLeftShape(s[1..]);
      i := k + 1;
      assert s[1..][k..] == s[i..];
      assert s[..i] == [' '] + s[1..][..k];
    } else {
      i := 0;
    }
  }

  lemma {:induction false} TrimRightShape(s: string) returns (j: nat)
    ensures j <= |s| && TrimRight(s) == s[..j] && IsBlank(s[j..])
    ensures TrimRight(s) == "" || TrimRight(s)[|TrimRight(s)| - 1] != ' '
    decreases |s|
  {
    if s != [] && s[|s| - 1] == ' ' {
      j := TrimRightShape(s[..|s| - 1]);
      assert s[..|s| - 1][..j] == s[..j];
      assert s[j..] == s[..|s| - 1][j..] + [' '];
    } else {
      j := |s|;
    }
  }

  lemma TrimLeftStep(s: string, start: nat)
    requires start < |s|
    ensures TrimLeft(s[start..]) == if s[start] == ' ' then TrimLeft(s[start + 1..]) else s[start..]
  {
    assert s[start..][1..] == s[start + 1..];
  }

  lemma TrimRightStep(s: string, start: nat, end: nat)
    requires start < end <= |s|
    ensures TrimRight(s[start..end]) == if s[end - 1] == ' ' then TrimRight(s[start..end - 1]) else s[start..end]
  {
    assert s[start..end][..end - start - 1] == s[start..end - 1];
  }

  /** The loop form of trimming: advance the start past spaces, then pull back the end. */
  method Trim(s: string) returns (r: string)
    ensures r == Trimmed(s)
  {
    var start, end := 0, |s|;
    while start < end && s[start] == ' '
      invariant 0 <= start <= end == |s|
      invariant TrimLeft(s[start..]) == TrimLeft(s)
    {
      TrimLeftStep(s, start);
      start := start + 1;
    }
    if start < end {
      TrimLeftStep(s, start);
    }
    assert TrimLeft(s) == s[start..end];
    while end > start && s[end - 1] == ' '
      invariant start <= end <= |s|
      invariant TrimRight(s[start..end]) == Trimmed(s)
    {
      TrimRightStep(s, start, end);
      end := end - 1;
    }
    if start < end {
      TrimRightStep(s, start, end);
    }
    r := s[start..end];
  }

  // ---------------------------------------------------------------------------
  // Splitting into words
  // ---------------------------------------------------------------------------

  /**
   * After reading `s`, the finished words and the word being collected: a space
   * ends a non-empty word, any other character extends it.
   */
  function SplitState(s: string): (seq<string>, string)
    decreases |s|
  {
    if s == [] then ([], "")
    else
      var (words, word) := SplitState(s[..|s| - 1]);
      var c := s[|s| - 1];
      if c == ' ' then
        if word != "" then (words + [word], "") else (words, "")
      else (words, word + [c])
  }

  /** The words of `s`: its maximal runs of characters other than space. */
  function Tokens(s: string): seq<string> {
    var (words, word) := SplitState(s);
    if word != "" then words + [word] else words
  }

  function Concat(ts: seq<string>): string
    decreases |ts|
  {
    if ts == [] then "" else Concat(ts[..|ts| - 1]) + ts[|ts| - 1]
  }

  function RemoveSpaces(s: string): string
    decreases |s|
  {
    if s == [] then "" else RemoveSpaces(s[..|s| - 1]) + (if s[|s| - 1] == ' ' then "" else [s[|s| - 1]])
  }

  lemma {:induction false} SplitStateFacts(s: string)
    ensures forall k :: 0 <= k < |SplitState(s).0| ==> SplitState(s).0[k] != "" && NoSpace(SplitState(s).0[k])
    ensures NoSpace(SplitState(s).1)
    ensures Concat(SplitState(s).0) + SplitState(s).1 == RemoveSpaces(s)
    decreases |s|
  {
    if s != [] {
      var p := s[..|s| - 1];
      SplitStateFacts(p);
      var (words, word) := SplitState(p);
      var c := s[|s| - 1];
      if c == ' ' {
        if word != "" {
          assert (words + [word])[..|words|] == words;
          assert Concat(words + [word]) == Concat(words) + word;
        }
      } else {
        assert Concat(words) + (word + [c]) == (Concat(words) + word) + [c];
      }
    }
  }

  /** Every word is non-empty and space-free, and the words put together are `s` without its spaces. */
  lemma TokensFacts(s: string)
    ensures forall k :: 0 <= k < |Tokens(s)| ==> Tokens(s)[k] != "" && NoSpace(Tokens(s)[k])
    ensures Concat(Tokens(s)) == RemoveSpaces(s)
  {
    SplitStateFacts(s);
    var (words, word) := SplitState(s);
    if word != "" {
      assert (words + [word])[..|words|] == words;
    }
  }

  /** The loop form of splitting, with the word being collected kept in `word`. */
  method Split(s: string) returns (result: seq<string>)
    ensures result == Tokens(s)
  {
    result := [];
    var word: string := "";
    var i := 0;
    while i < |s|
      invariant 0 <= i <= |s|
      invariant (result, word) == SplitState(s[..i])
    {
      var c := s[i];
      assert s[..i + 1][..i] == s[..i];
      if c == ' ' {
        if word != "" {
          result := result + [word];
          word := "";
        }
      } else {
        word := word + [c];
      }
      i := i + 1;
    }
    assert s[..i] == s;
    if word != "" {
      result := result + [word];
    }
  }
}
