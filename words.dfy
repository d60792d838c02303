/**
 * The word count of a carta de intención. Both the server and the client
 * count words by trimming the text and splitting it on runs of whitespace;
 * the client additionally shows a count that drops empty tokens. Split
 * follows the string-split-on-a-whitespace-pattern rule: a leading or
 * trailing run of whitespace yields an empty first or last token, and the
 * empty string yields one empty token. Words is an independent reference
 * count (the number of maximal runs of non-whitespace characters) that the
 * lemmas connect to both counts.
 */
module Words {

  /** The bounds of the word window, both inclusive. */
  const MinWords: nat := 50
  const MaxWords: nat := 500

  predicate IsSpace(c: char)
  {
    c == ' ' || c == '\t' || c == '\n' || c == '\r' || c == '\U{000B}' || c == '\U{000C}'
  }

  predicate AllSpace(s: string)
  {
    forall i :: 0 <= i < |s| ==> IsSpace(s[i])
  }

  predicate HasSpace(s: string)
  {
    exists i :: 0 <= i < |s| && IsSpace(s[i])
  }

  /** Drops the leading whitespace. */
  function TrimStart(s: string): (r: string)
    ensures |r| <= |s| && r == s[|s| - |r|..]
    ensures r == [] || !IsSpace(r[0])
    ensures forall i :: 0 <= i < |s| - |r| ==> IsSpace(s[i])
  {
    if s != [] && IsSpace(s[0]) then TrimStart(s[1..]) else s
  }

  /** Drops the trailing whitespace. */
  function TrimEnd(s: string): (r: string)
    ensures |r| <= |s| && r == s[..|r|]
    ensures r == [] || !IsSpace(r[|r| - 1])
    ensures forall i :: |r| <= i < |s| ==> IsSpace(s[i])
  {
    if s != [] && IsSpace(s[|s| - 1]) then TrimEnd(s[..|s| - 1]) else s
  }

  /**
   * Drops the whitespace at both ends: the result is the middle of `s`
   * found after the leading whitespace, everything before and after it is
   * whitespace, and it starts and ends with a non-space character unless it
   * is empty.
   */
  function Trim(s: string): (r: string)
    ensures r == [] <==> AllSpace(s)
    ensures r == [] || (!IsSpace(r[0]) && !IsSpace(r[|r| - 1]))
    ensures var lead := |s| - |TrimStart(s)|;
            && lead + |r| <= |s|
            && (forall i :: 0 <= i < |r| ==> r[i] == s[lead + i])
            && (forall i :: 0 <= i < lead ==> IsSpace(s[i]))
            && (forall i :: lead + |r| <= i < |s| ==> IsSpace(s[i]))
  {
    TrimEnds(s);
    TrimMiddle(s);
    TrimEnd(TrimStart(s))
  }

  /** Trimming leaves nothing exactly when `s` is all whitespace. */
  lemma TrimEnds(s: string)
    ensures TrimEnd(TrimStart(s)) == [] <==> AllSpace(s)
  {
    var t := TrimStart(s);
    if t != [] {
      assert t[0] == s[|s| - |t|];
      assert TrimEnd(t)[0] == t[0];
    }
  }

  /** The trimmed text sits in `s` right after the leading whitespace. */
  lemma TrimMiddle(s: string)
    ensures var lead := |s| - |TrimStart(s)|;
            var r := TrimEnd(TrimStart(s));
            && lead + |r| <= |s|
            && (forall i :: 0 <= i < |r| ==> r[i] == s[lead + i])
            && (forall i :: lead + |r| <= i < |s| ==> IsSpace(s[i]))
  {
    var t := TrimStart(s);
    var r := TrimEnd(t);
    var lead := |s| - |t|;
    forall i | 0 <= i < |r| ensures r[i] == s[lead + i] {
      assert r[i] == t[i];
    }
    forall i | lead + |r| <= i < |s| ensures IsSpace(s[i]) {
      assert s[i] == t[i - lead];
    }
  }

  /**
   * The tokens of `s` split on runs of whitespace. No token holds
   * whitespace, and only the first and the last can be empty: the first
   * when `s` starts with whitespace, the last when it ends with it.
   */
  function Split(s: string): (r: seq<string>)
    ensures |r| >= 1
    ensures forall k :: 0 <= k < |r| ==> !HasSpace(r[k])
    ensures forall k :: 0 < k < |r| - 1 ==> r[k] != []
    ensures s != [] && !IsSpace(s[0]) ==> r[0] != []
    decreases |s|
  {
    if s == [] then [""]
    else if IsSpace(s[0]) then [""] + Split(TrimStart(s[1..]))
    else
      var t := Split(s[1..]);
      [[s[0]] + t[0]] + t[1..]
  }

  /** The reference count: how many maximal runs of non-whitespace `s` holds. */
  function Words(s: string): nat
  {
    if s == [] then 0
    else (if !IsSpace(s[0]) && (|s| == 1 || IsSpace(s[1])) then 1 else 0) + Words(s[1..])
  }

  /** The tokens that are not empty. */
  function NonEmpty(tokens: seq<string>): (r: seq<string>)
    ensures |r| <= |tokens|
    ensures forall k :: 0 <= k < |r| ==> r[k] != []
    ensures (forall k :: 0 <= k < |tokens| ==> tokens[k] != []) ==> r == tokens
  {
    if tokens == [] then []
    else if tokens[0] == [] then NonEmpty(tokens[1..])
    else [tokens[0]] + NonEmpty(tokens[1..])
  }

  /** The count the submit checks use, on the server and in the carta form. */
  function SubmitWordCount(text: string): nat
  {
    |Split(Trim(text))|
  }

  /** The count the carta form displays under the text area. */
  function DisplayWordCount(text: string): nat
  {
    |NonEmpty(Split(Trim(text)))|
  }

  predicate WithinWordWindow(text: string)
  {
    MinWords <= SubmitWordCount(text) <= MaxWords
  }

  lemma {:induction false} WordsOfTrimStart(s: string)
    ensures Words(TrimStart(s)) == Words(s)
    decreases |s|
  {
    if s != [] && IsSpace(s[0]) {
      WordsOfTrimStart(s[1..]);
    }
  }

  lemma {:induction false} WordsIgnoreTrailingSpace(u: string, c: char)
    requires IsSpace(c)
    ensures Words(u + [c]) == Words(u)
    decreases |u|
  {
    if u != [] {
      assert (u + [c])[1..] == u[1..] + [c];
      WordsIgnoreTrailingSpace(u[1..], c);
    }
  }

  lemma {:induction false} WordsOfTrimEnd(s: string)
    ensures Words(TrimEnd(s)) == Words(s)
    decreases |s|
  {
    if s != [] && IsSpace(s[|s| - 1]) {
      var u := s[..|s| - 1];
      assert s == u + [s[|s| - 1]];
      WordsIgnoreTrailingSpace(u, s[|s| - 1]);
      WordsOfTrimEnd(u);
    }
  }

  lemma WordsOfTrim(s: string)
    ensures Words(Trim(s)) == Words(s)
  {
    WordsOfTrimStart(s);
    WordsOfTrimEnd(TrimStart(s));
  }

  /**
   * On a trimmed, non-empty text, splitting yields exactly one non-empty
   * token per word.
   */
  lemma {:induction false} SplitOfTrimmed(s: string)
    requires s != [] && !IsSpace(s[0]) && !IsSpace(s[|s| - 1])
    ensures |Split(s)| == Words(s)
    ensures forall k :: 0 <= k < |Split(s)| ==> Split(s)[k] != []
    decreases |s|
  {
    if |s| == 1 {
      var t := Split(s[1..]);
      assert s[1..] == [] && t == [""];
      assert Split(s) == [[s[0]] + t[0]] + t[1..];
      assert [s[0]] + t[0] == [s[0]] && t[1..] == [];
    } else {
      var t := Split(s[1..]);
      assert Split(s) == [[s[0]] + t[0]] + t[1..];
      if !IsSpace(s[1]) {
        SplitOfTrimmed(s[1..]);
      } else {
        SplitOfSpaceLed(s[1..]);
      }
    }
  }

  /** The step of SplitOfTrimmed where a word ends and whitespace follows. */
  lemma {:induction false} SplitOfSpaceLed(u: string)
    requires |u| >= 2 && IsSpace(u[0]) && !IsSpace(u[|u| - 1])
    ensures |Split(u)| == 1 + Words(u) && Split(u)[0] == []
    ensures forall k :: 1 <= k < |Split(u)| ==> Split(u)[k] != []
    decreases |u|, 0
  {
    var d := TrimStart(u[1..]);
    assert d != [] && d[|d| - 1] == u[|u| - 1];
    SplitOfTrimmed(d);
    assert Split(u) == [""] + Split(d);
    WordsOfTrimStart(u);
    assert TrimStart(u) == d;
  }

  /**
   * The submit count is the number of words, except that a text of only
   * whitespace counts as one.
   */
  lemma SubmitWordCountIsWords(text: string)
    ensures SubmitWordCount(text) == if AllSpace(text) then 1 else Words(text)
  {
    var t := Trim(text);
    WordsOfTrim(text);
    if t != [] {
      SplitOfTrimmed(t);
    } else {
      assert Split(t) == [""];
    }
  }

  /** The displayed count is exactly the number of words. */
  lemma DisplayWordCountIsWords(text: string)
    ensures DisplayWordCount(text) == Words(text)
  {
    var t := Trim(text);
    WordsOfTrim(text);
    if t != [] {
      SplitOfTrimmed(t);
      assert NonEmpty(Split(t)) == Split(t);
    } else {
      assert Split(t) == [""];
      assert [""][1..] == [];
      assert NonEmpty([""]) == [];
      assert Words(t) == 0;
    }
  }

  /**
   * The two counts agree except on a whitespace-only text, which displays
   * 0 words but is submitted as 1.
   */
  lemma WordCountsAgree(text: string)
    ensures !AllSpace(text) ==> SubmitWordCount(text) == DisplayWordCount(text)
    ensures AllSpace(text) ==> SubmitWordCount(text) == 1 && DisplayWordCount(text) == 0
  {
    SubmitWordCountIsWords(text);
    DisplayWordCountIsWords(text);
    WordsOfTrim(text);
  }
}
