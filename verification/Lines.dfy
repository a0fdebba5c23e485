/** The string operations of the wire protocol: trimming a line and splitting it into words. */
module Lines {

  // The Unicode White_Space property.
  predicate IsSpace(c: char) {
    '\t' <= c <= '\r' || c == ' ' || c == '\U{0085}' || c == '\U{00A0}' || c == '\U{1680}'
    || '\U{2000}' <= c <= '\U{200A}' || c == '\U{2028}' || c == '\U{2029}'
    || c == '\U{202F}' || c == '\U{205F}' || c == '\U{3000}'
  }

  function TrimStart(s: string): string {
    if s != "" && IsSpace(s[0]) then TrimStart(s[1..]) else s
  }

  function TrimEnd(s: string): string {
    if s != "" && IsSpace(s[|s| - 1]) then TrimEnd(s[..|s| - 1]) else s
  }

  function Trim(s: string): string {
    TrimEnd(TrimStart(s))
  }

  // Nothing to trim.
  predicate Tight(s: string) {
    s != "" && !IsSpace(s[0]) && !IsSpace(s[|s| - 1])
  }

  lemma TrimLine(s: string)
    requires Tight(s)
    ensures Trim(s + "\n") == s
  {
    var line := s + "\n";
    assert line[0] == s[0] && line[|line| - 1] == '\n' && line[..|line| - 1] == s;
    assert TrimStart(line) == line;
    assert TrimEnd(line) == TrimEnd(s) == s;
  }

  // The length of the leading run of non-spaces.
  function WordLength(s: string): (n: nat)
    ensures n <= |s|
    ensures forall k :: 0 <= k < n ==> !IsSpace(s[k])
    ensures n < |s| ==> IsSpace(s[n])
  {
    if s == "" || IsSpace(s[0]) then 0 else 1 + WordLength(s[1..])
  }

  // `split_whitespace`
  function Words(s: string): seq<string>
    decreases |s|
  {
    if s == "" then []
    else if IsSpace(s[0]) then Words(s[1..])
    else [s[..WordLength(s)]] + Words(s[WordLength(s)..])
  }

  // `split(' ')`: empty parts are kept.
  function Parts(s: string): (parts: seq<string>)
    ensures parts != []
  {
    if s == "" then [""]
    else
      var rest := Parts(s[1..]);
      if s[0] == ' ' then [""] + rest else [[s[0]] + rest[0]] + rest[1..]
  }

  predicate IsWord(s: string) {
    s != "" && forall k :: 0 <= k < |s| ==> !IsSpace(s[k])
  }

  function Spaced(words: seq<string>): string {
    if words == [] then "" else if |words| == 1 then words[0] else words[0] + " " + Spaced(words[1..])
  }

  lemma FirstWord(word: string, rest: string)
    requires IsWord(word)
    requires rest == "" || IsSpace(rest[0])
    ensures Words(word + rest) == [word] + Words(rest)
  {
    var s := word + rest;
    var n := WordLength(s);
    assert forall k :: 0 <= k < |word| ==> s[k] == word[k];
    assert rest != "" ==> s[|word|] == rest[0];
    assert n == |word|;
    assert s[..n] == word && s[n..] == rest;
  }

  predicate AllWords(words: seq<string>) {
    forall k :: 0 <= k < |words| ==> IsWord(words[k])
  }

  // A word, and what follows it after a space.
  lemma SpacedCons(words: seq<string>)
    requires |words| > 1 && IsWord(words[0])
    ensures Words(Spaced(words)) == [words[0]] + Words(Spaced(words[1..]))
  {
    var tail := " " + Spaced(words[1..]);
    FirstWord(words[0], tail);
    assert tail[1..] == Spaced(words[1..]);
    assert Spaced(words) == words[0] + tail;
  }

  /** Words written with single spaces are read back. */
  lemma {:induction false} SpacedWords(words: seq<string>)
    requires AllWords(words)
    ensures Words(Spaced(words)) == words
  {
    if |words| == 1 {
      FirstWord(words[0], "");
      assert words[0] + "" == words[0];
    } else if words != [] {
      SpacedCons(words);
      SpacedWords(words[1..]);
    }
  }

  lemma {:induction false} SpacedIsTight(words: seq<string>)
    requires AllWords(words) && words != []
    ensures Tight(Spaced(words))
  {
    if |words| > 1 {
      var rest := Spaced(words[1..]);
      SpacedIsTight(words[1..]);
      assert Spaced(words)[|Spaced(words)| - 1] == rest[|rest| - 1];
    }
  }

  lemma {:induction false} PartsOfOne(word: string)
    requires forall k :: 0 <= k < |word| ==> word[k] != ' '
    ensures Parts(word) == [word]
  {
    if word != "" {
      PartsOfOne(word[1..]);
      assert [word[0]] + word[1..] == word;
    }
  }

  lemma {:induction false} PartsOfTwo(first: string, second: string)
    requires forall k :: 0 <= k < |first| ==> first[k] != ' '
    requires forall k :: 0 <= k < |second| ==> second[k] != ' '
    ensures Parts(first + " " + second) == [first, second]
  {
    var s := first + " " + second;
    if first == "" {
      assert s[0] == ' ' && s[1..] == second;
      PartsOfOne(second);
    } else {
      assert s[0] == first[0] && s[1..] == first[1..] + " " + second;
      PartsOfTwo(first[1..], second);
      assert [s[0]] + first[1..] == first;
    }
  }
}
