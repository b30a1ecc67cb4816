/** The string primitives the configuration code leans on, with the laws that make
    them usable: splitting and joining are mutually inverse, trimming and
    de-duplicating are idempotent. */
module Text {

  datatype Option<+T> = None | Some(value: T)

  /** `strings.Split` for a one-character separator. */
  function Split(s: string, sep: char): (words: seq<string>)
    ensures |words| > 0
  {
    if s == "" then [""]
    else
      var rest := Split(s[1..], sep);
      if s[0] == sep then [""] + rest else [[s[0]] + rest[0]] + rest[1..]
  }

  /** `strings.Join` for a one-character separator. */
  function Join(words: seq<string>, sep: char): string {
    if |words| == 0 then ""
    else if |words| == 1 then words[0]
    else words[0] + [sep] + Join(words[1..], sep)
  }

  ghost predicate FreeOf(word: string, sep: char) {
    sep !in word
  }

  ghost predicate AllFreeOf(words: seq<string>, sep: char) {
    forall i :: 0 <= i < |words| ==> FreeOf(words[i], sep)
  }

  lemma {:induction false} SplitWordsAreFree(s: string, sep: char)
    ensures AllFreeOf(Split(s, sep), sep)
  {
    if s != "" {
      SplitWordsAreFree(s[1..], sep);
      var rest := Split(s[1..], sep);
      assert FreeOf(rest[0], sep);
    }
  }

  lemma {:induction false} JoinOfSplit(s: string, sep: char)
    ensures Join(Split(s, sep), sep) == s
  {
    if s == "" {
    } else {
      JoinOfSplit(s[1..], sep);
      var rest := Split(s[1..], sep);
      if s[0] == sep {
        assert ([""] + rest)[1..] == rest;
      } else if |rest| > 1 {
        assert ([[s[0]] + rest[0]] + rest[1..])[1..] == rest[1..];
      }
    }
  }

  lemma {:induction false} SplitOfWord(word: string, sep: char)
    requires FreeOf(word, sep)
    ensures Split(word, sep) == [word]
  {
    if word != "" {
      assert word[0] in word && word == [word[0]] + word[1..];
      SplitOfWord(word[1..], sep);
    }
  }

  /** One unfolding of `Split`, for use where deeper unfoldings only cost time. */
  lemma SplitStep(s: string, sep: char)
    requires s != ""
    ensures var rest := Split(s[1..], sep);
      Split(s, sep) == if s[0] == sep then [""] + rest else [[s[0]] + rest[0]] + rest[1..]
  {}

  lemma SplitOfEmpty(sep: char)
    ensures Split("", sep) == [""]
  {}

  lemma {:induction false} SplitOfConcat(a: string, sep: char, b: string)
    ensures Split(a + [sep] + b, sep) == Split(a, sep) + Split(b, sep)
  {
    hide Split;
    var whole := a + [sep] + b;
    SplitStep(whole, sep);
    if a == "" {
      SplitOfEmpty(sep);
      assert whole[1..] == b;
    } else {
      assert whole[1..] == a[1..] + [sep] + b;
      SplitOfConcat(a[1..], sep, b);
      SplitStep(a, sep);
      var rest, tail := Split(a[1..], sep), Split(b, sep);
      assert (rest + tail)[1..] == rest[1..] + tail;
    }
  }

  lemma {:induction false} SplitOfJoin(words: seq<string>, sep: char)
    requires |words| > 0 && AllFreeOf(words, sep)
    ensures Split(Join(words, sep), sep) == words
  {
    assert FreeOf(words[0], sep);
    SplitOfWord(words[0], sep);
    if |words| > 1 {
      assert AllFreeOf(words[1..], sep) by {
        forall i | 0 <= i < |words[1..]| ensures FreeOf(words[1..][i], sep) {
          assert FreeOf(words[i + 1], sep);
        }
      }
      SplitOfConcat(words[0], sep, Join(words[1..], sep));
      SplitOfJoin(words[1..], sep);
    }
  }

  /** `strings.SplitN(s, sep, 2)`: the text before the first separator, and the
      text after it when there is one. */
  function SplitFirst(s: string, sep: char): (parts: (string, Option<string>))
  {
    if s == "" then ("", None)
    else if s[0] == sep then ("", Some(s[1..]))
    else
      var rest := SplitFirst(s[1..], sep);
      ([s[0]] + rest.0, rest.1)
  }

  lemma {:induction false} SplitFirstOfWord(word: string, sep: char)
    requires FreeOf(word, sep)
    ensures SplitFirst(word, sep) == (word, None)
  {
    if word != "" {
      assert word[0] in word && word == [word[0]] + word[1..];
      SplitFirstOfWord(word[1..], sep);
    }
  }

  lemma {:induction false} SplitFirstOfConcat(word: string, sep: char, tail: string)
    requires FreeOf(word, sep)
    ensures SplitFirst(word + [sep] + tail, sep) == (word, Some(tail))
  {
    var whole := word + [sep] + tail;
    if word == "" {
      assert whole[1..] == tail;
    } else {
      assert word[0] in word && word == [word[0]] + word[1..];
      assert whole[1..] == word[1..] + [sep] + tail;
      SplitFirstOfConcat(word[1..], sep, tail);
    }
  }

  /** `strings.ToUpper` on ASCII text. */
  function UpperChar(c: char): (u: char)
    ensures u == '_' <==> c == '_'
  {
    if 'a' <= c <= 'z' then ((c as int) - 32) as char else c
  }

  function Upper(s: string): (u: string)
    ensures |u| == |s|
  {
    if s == "" then "" else [UpperChar(s[0])] + Upper(s[1..])
  }

  const SMALL := "abcdefghijklmnopqrstuvwxyz"
  const CAPITAL := "ABCDEFGHIJKLMNOPQRSTUVWXYZ"

  /** Small letters become capitals, letter by letter, and everything else stays. */
  lemma {:induction false} UpperAt(s: string, i: nat)
    requires i < |s|
    ensures s[i] !in SMALL ==> Upper(s)[i] == s[i]
    ensures forall k :: 0 <= k < |SMALL| && s[i] == SMALL[k] ==> Upper(s)[i] == CAPITAL[k]
  {
    if i == 0 {
      CapitalOf(s[0]);
    } else {
      UpperAt(s[1..], i - 1);
    }
  }

  lemma CapitalOf(c: char)
    ensures c !in SMALL ==> UpperChar(c) == c
    ensures forall k :: 0 <= k < |SMALL| && c == SMALL[k] ==> UpperChar(c) == CAPITAL[k]
  {
    assert forall k :: 0 <= k < |SMALL| ==> SMALL[k] as int == 'a' as int + k;
    assert forall k :: 0 <= k < |SMALL| ==> CAPITAL[k] as int == 'A' as int + k;
    if 'a' <= c <= 'z' {
      assert SMALL[c as int - 'a' as int] == c;
    }
  }

  lemma {:induction false} UpperKeepsUnderscoreFree(s: string)
    requires FreeOf(s, '_')
    ensures FreeOf(Upper(s), '_')
  {
    if s != "" {
      assert s[0] in s;
      UpperKeepsUnderscoreFree(s[1..]);
    }
  }

  lemma {:induction false} UpperOfConcat(a: string, b: string)
    ensures Upper(a + b) == Upper(a) + Upper(b)
  {
    if a == "" {
      assert a + b == b;
    } else {
      assert (a + b)[1..] == a[1..] + b;
      UpperOfConcat(a[1..], b);
    }
  }

  /** `strings.HasPrefix` / `strings.TrimPrefix`. */
  function TrimPrefix(s: string, prefix: string): string {
    if prefix <= s then s[|prefix|..] else s
  }

  predicate HasSuffix(s: string, c: char) {
    s != "" && s[|s| - 1] == c
  }

  /** `strings.TrimRight` for a one-character cut set. */
  function TrimRight(s: string, c: char): (t: string)
    ensures !HasSuffix(t, c)
    ensures t <= s && forall i :: |t| <= i < |s| ==> s[i] == c
  {
    if HasSuffix(s, c) then TrimRight(s[..|s| - 1], c) else s
  }

  /** What `RemoveDuplicatesFromStringArray` keeps: first occurrences, in order. */
  function Dedup(words: seq<string>): (r: seq<string>)
    ensures words != [] ==> r != []
  {
    if words == [] then []
    else
      var r := Dedup(words[..|words| - 1]);
      var last := words[|words| - 1];
      if last in r then r else r + [last]
  }

  ghost predicate NoDuplicates<T(!new)>(s: seq<T>) {
    forall i, j :: 0 <= i < j < |s| ==> s[i] != s[j]
  }

  lemma {:induction false} DedupKeepsWords(words: seq<string>)
    ensures NoDuplicates(Dedup(words))
    ensures forall w :: w in Dedup(words) <==> w in words
  {
    if words != [] {
      DedupKeepsWords(words[..|words| - 1]);
      assert words == words[..|words| - 1] + [words[|words| - 1]];
    }
  }

  /** Where a word stands for the first time. */
  function FirstIndex(words: seq<string>, word: string): (i: nat)
    requires word in words
    ensures i < |words| && words[i] == word && forall k :: 0 <= k < i ==> words[k] != word
  {
    if words[0] == word then 0 else 1 + FirstIndex(words[1..], word)
  }

  /** The words that are kept stand in the order in which they came up first. */
  lemma {:induction false} DedupKeepsOrder(words: seq<string>, i: nat, j: nat)
    requires i < j < |Dedup(words)|
    ensures Dedup(words)[i] in words && Dedup(words)[j] in words
    ensures FirstIndex(words, Dedup(words)[i]) < FirstIndex(words, Dedup(words)[j])
  {
    var front, last := words[..|words| - 1], words[|words| - 1];
    var a, b := Dedup(words)[i], Dedup(words)[j];
    assert words == front + [last];
    DedupKeepsWords(front);
    assert a in Dedup(front) && a in front;
    assert forall w :: w in front ==> FirstIndex(words, w) == FirstIndex(front, w) by {
      forall w | w in front ensures FirstIndex(words, w) == FirstIndex(front, w) {
        assert words[FirstIndex(front, w)] == w;
      }
    }
    if j < |Dedup(front)| {
      DedupKeepsOrder(front, i, j);
    } else {
      assert b == last && b !in front;
    }
  }

  lemma {:induction false} DedupOfDistinct(words: seq<string>)
    requires NoDuplicates(words)
    ensures Dedup(words) == words
  {
    if words != [] {
      var front := words[..|words| - 1];
      DedupOfDistinct(front);
      assert forall i :: 0 <= i < |front| ==> front[i] == words[i] != words[|words| - 1];
      assert words == front + [words[|words| - 1]];
    }
  }

  lemma {:induction false} DedupShrinks(words: seq<string>)
    ensures |Dedup(words)| <= |words|
    ensures !NoDuplicates(words) ==> |Dedup(words)| < |words|
  {
    if words != [] {
      var front := words[..|words| - 1];
      DedupShrinks(front);
      DedupKeepsWords(front);
      if NoDuplicates(front) && !NoDuplicates(words) {
        DedupOfDistinct(front);
        var i, j :| 0 <= i < j < |words| && words[i] == words[j];
        assert j == |words| - 1 by {
          assert forall k :: 0 <= k < |front| ==> front[k] == words[k];
        }
        assert front[i] == words[|words| - 1];
        assert words[|words| - 1] in front;
      }
    }
  }

  /** The loop of `RemoveDuplicatesFromStringArray`, with its `seen` table. */
  method RemoveDuplicates(words: seq<string>) returns (result: seq<string>)
    ensures result == Dedup(words)
  {
    result := [];
    var seen: set<string> := {};
    for i := 0 to |words|
      invariant result == Dedup(words[..i])
      invariant forall w :: w in seen <==> w in result
    {
      assert words[..i + 1][..i] == words[..i];
      if words[i] !in seen {
        result := result + [words[i]];
        seen := seen + {words[i]};
      }
    }
    assert words[..|words|] == words;
  }
}
