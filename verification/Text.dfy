/** The string operations that the text algorithms share. A string is a sequence of
    Unicode scalar values; its length in bytes is the length of its UTF-8 encoding. */
module Text {

  /** The characters with the Unicode property White_Space. */
  predicate IsSpace(c: char) {
    || c == ' ' || '\t' <= c <= '\r' || c == '\U{85}' || c == '\U{A0}' || c == '\U{1680}'
    || '\U{2000}' <= c <= '\U{200A}' || c == '\U{2028}' || c == '\U{2029}' || c == '\U{202F}'
    || c == '\U{205F}' || c == '\U{3000}'
  }

  /** The white space of ASCII, the other space and line separators, and the no-break spaces. */
  lemma SpacesAre(c: char)
    ensures IsSpace(c) && c < '\U{80}' <==> c in " \t\n\r\U{B}\U{C}"
    ensures IsSpace(c) && c >= '\U{80}' <==>
              || c in "\U{85}\U{A0}\U{1680}\U{2000}\U{2001}\U{2002}\U{2003}\U{2004}\U{2005}\U{2006}"
              || c in "\U{2007}\U{2008}\U{2009}\U{200A}\U{2028}\U{2029}\U{202F}\U{205F}\U{3000}"
  {
  }

  /** A character takes the bytes that its number needs in UTF-8: 7, 11, 16 or 21 bits. */
  lemma WidthIs(c: char)
    ensures Width(c) == 1 <==> c as int < 0x80
    ensures Width(c) == 2 <==> 0x80 <= c as int < 0x800
    ensures Width(c) == 3 <==> 0x800 <= c as int < 0x1_0000
    ensures Width(c) == 4 <==> 0x1_0000 <= c as int
  {
  }

  function Width(c: char): nat {
    if c < '\U{80}' then 1 else if c < '\U{800}' then 2 else if c < '\U{10000}' then 3 else 4
  }

  function ByteLength(s: string): nat {
    if s == "" then 0 else Width(s[0]) + ByteLength(s[1..])
  }

  lemma {:induction false} ByteLengthJoin(s: string, t: string)
    ensures ByteLength(s + t) == ByteLength(s) + ByteLength(t)
  {
    if s == "" {
      assert s + t == t;
    } else {
      ByteLengthJoin(s[1..], t);
      assert (s + t)[1..] == s[1..] + t;
    }
  }

  /** Every character takes at least a byte. */
  lemma {:induction false} ByteLengthAtLeast(s: string)
    ensures |s| <= ByteLength(s) <= 4 * |s|
  {
    if s != "" {
      ByteLengthAtLeast(s[1..]);
    }
  }

  function TrimLeft(s: string): string {
    if s != "" && IsSpace(s[0]) then TrimLeft(s[1..]) else s
  }

  function TrimRight(s: string): string {
    if s != "" && IsSpace(s[|s| - 1]) then TrimRight(s[..|s| - 1]) else s
  }

  function TrimSpace(s: string): string {
    TrimRight(TrimLeft(s))
  }

  predicate AllSpace(s: string) {
    forall i | 0 <= i < |s| :: IsSpace(s[i])
  }

  lemma {:induction false} TrimLeftIs(s: string) returns (i: nat)
    ensures i <= |s| && TrimLeft(s) == s[i..] && AllSpace(s[..i]) && (i < |s| ==> !IsSpace(s[i]))
  {
    i := 0;
    if s != "" && IsSpace(s[0]) {
      var k := TrimLeftIs(s[1..]);
      i := k + 1;
      assert s[1..][k..] == s[i..] && s[..i] == [s[0]] + s[1..][..k];
    }
  }

  lemma {:induction false} TrimRightIs(s: string) returns (j: nat)
    ensures j <= |s| && TrimRight(s) == s[..j] && AllSpace(s[j..]) && (j > 0 ==> !IsSpace(s[j - 1]))
  {
    j := |s|;
    if s != "" && IsSpace(s[|s| - 1]) {
      var front := s[..|s| - 1];
      j := TrimRightIs(front);
      assert front[..j] == s[..j] && s[j..] == front[j..] + [s[|s| - 1]];
    }
  }

  /** Trimming takes spaces, and only spaces, off both ends. */
  lemma TrimSpaceIs(s: string) returns (i: nat, j: nat)
    ensures i <= j <= |s| && TrimSpace(s) == s[i..j] && AllSpace(s[..i]) && AllSpace(s[j..])
    ensures i < j ==> !IsSpace(s[i]) && !IsSpace(s[j - 1])
  {
    i := TrimLeftIs(s);
    var k := TrimRightIs(s[i..]);
    j := i + k;
    assert s[i..][..k] == s[i..j] && s[i..][k..] == s[j..];
    if i < j {
      assert s[i..][k - 1] == s[j - 1];
    }
  }

  // ----- Words -----

  predicate IsWord(w: string) {
    w != "" && forall i | 0 <= i < |w| :: !IsSpace(w[i])
  }

  /** How many characters precede the first space. */
  function WordLength(s: string): (n: nat)
    ensures n <= |s| && (forall i | 0 <= i < n :: !IsSpace(s[i])) && (n < |s| ==> IsSpace(s[n]))
  {
    if s == "" || IsSpace(s[0]) then 0 else 1 + WordLength(s[1..])
  }

  /** The words of a text, spaces removed. */
  function Fields(s: string): seq<string>
    decreases |s|
  {
    if s == "" then []
    else if IsSpace(s[0]) then Fields(s[1..])
    else [s[..WordLength(s)]] + Fields(s[WordLength(s)..])
  }

  /** The words with one blank between neighbours. */
  function Join(words: seq<string>): string {
    if words == [] then ""
    else if |words| == 1 then words[0]
    else words[0] + " " + Join(words[1..])
  }

  lemma {:induction false} FieldsAreWords(s: string)
    ensures forall w | w in Fields(s) :: IsWord(w)
    decreases |s|
  {
    if s != "" {
      FieldsAreWords(if IsSpace(s[0]) then s[1..] else s[WordLength(s)..]);
    }
  }

  lemma FirstField(w: string, rest: string)
    requires IsWord(w) && (rest == "" || IsSpace(rest[0]))
    ensures Fields(w + rest) == [w] + Fields(rest)
  {
    var s := w + rest;
    assert forall i | 0 <= i < |w| :: s[i] == w[i];
    assert rest != "" ==> s[|w|] == rest[0];
    var n := WordLength(s);
    assert n == |w|;
    assert s[..n] == w && s[n..] == rest;
  }

  lemma JoinStep(words: seq<string>)
    requires |words| > 1
    ensures Join(words) == words[0] + (" " + Join(words[1..]))
  {
    assert words[0] + " " + Join(words[1..]) == words[0] + (" " + Join(words[1..]));
  }

  lemma FieldsAfterBlank(s: string)
    ensures Fields(" " + s) == Fields(s)
  {
    assert (" " + s)[1..] == s;
  }

  lemma JoinOfOne(w: string)
    requires IsWord(w)
    ensures Fields(Join([w])) == [w]
  {
    FirstField(w, "");
    assert w + "" == w;
  }

  /** Joining words and taking the words of the text again changes nothing. */
  lemma {:induction false} FieldsOfJoin(words: seq<string>)
    requires forall w | w in words :: IsWord(w)
    ensures Fields(Join(words)) == words
  {
    if |words| == 1 {
      JoinOfOne(words[0]);
      assert words == [words[0]];
    } else if |words| > 1 {
      var rest := words[1..];
      FieldsOfJoin(rest);
      JoinStep(words);
      FieldsAfterBlank(Join(rest));
      FirstField(words[0], " " + Join(rest));
      assert words == [words[0]] + rest;
    }
  }

  /** A space, wherever it stands, ends one word list and begins another. */
  lemma {:induction false} FieldsSplit(a: string, c: char, b: string)
    requires IsSpace(c)
    ensures Fields(a + [c] + b) == Fields(a) + Fields(b)
    decreases |a|
  {
    var s := a + [c] + b;
    if a == "" {
      assert s[0] == c && s[1..] == b;
    } else if IsSpace(a[0]) {
      assert s[0] == a[0] && s[1..] == a[1..] + [c] + b;
      FieldsSplit(a[1..], c, b);
    } else {
      FieldsSplitWord(a, c, b);
    }
  }

  lemma {:induction false} FieldsSplitWord(a: string, c: char, b: string)
    requires IsSpace(c) && a != "" && !IsSpace(a[0])
    ensures Fields(a + [c] + b) == Fields(a) + Fields(b)
    decreases |a|, 0
  {
    var n := WordLength(a);
    var w, more := a[..n], a[n..];
    assert a == w + more && IsWord(w);
    FirstField(w, more);
    assert a + [c] + b == w + (more + [c] + b);
    FirstField(w, more + [c] + b);
    FieldsSplit(more, c, b);
  }

  /** A word is its own only word; text without words has none. */
  lemma FieldsOfWord(w: string)
    ensures IsWord(w) ==> Fields(w) == [w]
    ensures Fields("") == []
  {
    if IsWord(w) {
      FirstField(w, "");
      assert w + "" == w;
    }
  }

  function Lengths(words: seq<string>): nat {
    if words == [] then 0 else |words[0]| + Lengths(words[1..])
  }

  /** Exactly one character stands between two joined words. */
  lemma {:induction false} JoinLength(words: seq<string>)
    requires words != []
    ensures |Join(words)| == Lengths(words) + |words| - 1
  {
    if |words| > 1 {
      JoinLength(words[1..]);
    }
  }
}
