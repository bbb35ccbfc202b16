/**
 * String helpers the quiz application uses on topic identifiers: splitting on
 * a separator and joining back, ASCII upper-casing, substring
 * search, decimal rendering of counters, and the display form of a topic id
 * (`formatTopicName`, also inlined by the sample-question generator).
 */
module Text {

  /** `toUpperCase` of one character, for the ASCII letters topic ids are made of. */
  function Upper(c: char): (u: char)
    ensures 'a' <= c <= 'z' ==> 'A' <= u <= 'Z' && u as int == c as int - 32
    ensures !('a' <= c <= 'z') ==> u == c
  {
    if 'a' <= c <= 'z' then (c as int - 32) as char else c
  }

  /** JavaScript's `s.split(sep)` for a one-character separator. */
  function Split(s: string, sep: char): (parts: seq<string>)
    ensures |parts| >= 1
    ensures forall p :: p in parts ==> sep !in p
  {
    if s == [] then [[]]
    else
      var rest := Split(s[1..], sep);
      if s[0] == sep then [[]] + rest
      else [[s[0]] + rest[0]] + rest[1..]
  }

  /** JavaScript's `parts.join(sep)`. */
  function Join(parts: seq<string>, sep: string): (s: string)
  {
    if parts == [] then []
    else if |parts| == 1 then parts[0]
    else parts[0] + sep + Join(parts[1..], sep)
  }

  /** Splitting and joining with the same separator gives the input back. */
  lemma {:induction false} JoinSplit(s: string, sep: char)
    ensures Join(Split(s, sep), [sep]) == s
  {
    if s != [] {
      var rest := Split(s[1..], sep);
      JoinSplit(s[1..], sep);
      if s[0] != sep {
        if |rest| == 1 {
          assert Split(s, sep) == [[s[0]] + rest[0]];
        } else {
          var parts := Split(s, sep);
          assert parts[1..] == rest[1..];
          assert Join(rest, [sep]) == rest[0] + [sep] + Join(rest[1..], [sep]);
        }
      }
    }
  }

  /** `word.charAt(0).toUpperCase() + word.slice(1)`: an empty word stays empty. */
  function Capitalize(word: string): (r: string)
  {
    if word == [] then [] else [Upper(word[0])] + word[1..]
  }

  function MapCapitalize(words: seq<string>): (r: seq<string>)
    ensures |r| == |words| && forall k :: 0 <= k < |words| ==> r[k] == Capitalize(words[k])
  {
    if words == [] then [] else [Capitalize(words[0])] + MapCapitalize(words[1..])
  }

  /**
   * `formatTopicName`: split the identifier on hyphens, capitalise each word
   * and join the words with spaces, so `upper-limb` becomes `Upper Limb`.
   */
  function FormatTopicName(topicId: string): (name: string)
  {
    Join(MapCapitalize(Split(topicId, '-')), " ")
  }

  /**
   * The display name character by character: a hyphen becomes a space, the
   * first character of the id and every character after a hyphen is
   * upper-cased, every other character is kept. `atStart` says whether the
   * first character of `s` begins a word.
   */
  function Displayed(s: string, atStart: bool): (r: string)
  {
    if s == [] then []
    else if s[0] == '-' then [' '] + Displayed(s[1..], true)
    else [if atStart then Upper(s[0]) else s[0]] + Displayed(s[1..], false)
  }

  /** The word list that `FormatTopicName` joins, with the first word left as it is. */
  function JoinTail(words: seq<string>): string
    requires |words| >= 1
  {
    Join([words[0]] + MapCapitalize(words[1..]), " ")
  }

  lemma {:induction false} FormatIsDisplayed(s: string)
    ensures FormatTopicName(s) == Displayed(s, true)
    ensures JoinTail(Split(s, '-')) == Displayed(s, false)
  {
    if s != [] {
      FormatIsDisplayed(s[1..]);
      if s[0] == '-' {
        HyphenStep(s);
      } else {
        LetterStep(s);
      }
    }
  }

  /** The inductive step of `FormatIsDisplayed` when the id starts with a hyphen. */
  lemma HyphenStep(s: string)
    requires s != [] && s[0] == '-'
    requires FormatTopicName(s[1..]) == Displayed(s[1..], true)
    requires JoinTail(Split(s[1..], '-')) == Displayed(s[1..], false)
    ensures FormatTopicName(s) == Displayed(s, true)
    ensures JoinTail(Split(s, '-')) == Displayed(s, false)
  {
    var rest := Split(s[1..], '-');
    var caps := MapCapitalize(rest);
    assert Split(s, '-') == [[]] + rest;
    assert MapCapitalize([[]] + rest) == [[]] + caps;
    JoinCons([], caps);
    JoinCons([], [rest[0]] + MapCapitalize(rest[1..]));
    if rest[0] == [] {
      assert [rest[0]] + MapCapitalize(rest[1..]) == caps;
    } else {
      assert rest[0][0] != '-' by { assert rest[0] in rest; }
    }
    assert Split(s, '-')[0] == [];
    assert Split(s, '-')[1..] == rest;
  }

  /** The inductive step of `FormatIsDisplayed` when the id starts with a word character. */
  lemma LetterStep(s: string)
    requires s != [] && s[0] != '-'
    requires FormatTopicName(s[1..]) == Displayed(s[1..], true)
    requires JoinTail(Split(s[1..], '-')) == Displayed(s[1..], false)
    ensures FormatTopicName(s) == Displayed(s, true)
    ensures JoinTail(Split(s, '-')) == Displayed(s, false)
  {
    var rest := Split(s[1..], '-');
    var parts := Split(s, '-');
    var tail := MapCapitalize(rest[1..]);
    assert parts == [[s[0]] + rest[0]] + rest[1..];
    assert parts[1..] == rest[1..];
    assert MapCapitalize(parts) == [[Upper(s[0])] + rest[0]] + tail;
    JoinPrefixChar(Upper(s[0]), rest[0], tail);
    JoinPrefixChar(s[0], rest[0], tail);
    assert JoinTail(rest) == Join([rest[0]] + tail, " ");
  }

  /** Putting a character in front of the first word puts it in front of the joined text. */
  lemma JoinPrefixChar(c: char, w: string, ws: seq<string>)
    ensures Join([[c] + w] + ws, " ") == [c] + Join([w] + ws, " ")
  {
    JoinCons([c] + w, ws);
    JoinCons(w, ws);
  }

  /** Joining a word in front of a list of words. */
  lemma JoinCons(w: string, ws: seq<string>)
    ensures Join([w] + ws, " ") == if ws == [] then w else w + " " + Join(ws, " ")
  {
    assert ([w] + ws)[1..] == ws;
  }

  /**
   * The display name has one character per character of the id, contains no
   * hyphen, and upper-cases exactly the characters that begin a word.
   */
  lemma FormatTopicNameChars(topicId: string)
    ensures |FormatTopicName(topicId)| == |topicId|
    ensures '-' !in FormatTopicName(topicId)
    ensures forall k :: 0 <= k < |topicId| ==>
      FormatTopicName(topicId)[k] ==
        if topicId[k] == '-' then ' '
        else if k == 0 || topicId[k - 1] == '-' then Upper(topicId[k])
        else topicId[k]
  {
    FormatIsDisplayed(topicId);
    DisplayedChars(topicId, true);
    var name := FormatTopicName(topicId);
    forall k | 0 <= k < |name| ensures name[k] != '-' {
      assert name[k] == DisplayChar(topicId, true, k);
    }
  }

  /** The character the display name has at position `k` of `s`. */
  function DisplayChar(s: string, atStart: bool, k: nat): char
    requires k < |s|
  {
    if s[k] == '-' then ' '
    else if (k == 0 && atStart) || (k > 0 && s[k - 1] == '-') then Upper(s[k])
    else s[k]
  }

  lemma {:induction false} DisplayedChars(s: string, atStart: bool)
    ensures |Displayed(s, atStart)| == |s|
    ensures forall k :: 0 <= k < |s| ==> Displayed(s, atStart)[k] == DisplayChar(s, atStart, k)
  {
    if s != [] {
      var t := s[1..];
      var b := s[0] == '-';
      DisplayedChars(t, b);
      var r := Displayed(s, atStart);
      assert r == [r[0]] + Displayed(t, b);
      forall k | 0 < k < |s|
        ensures r[k] == DisplayChar(s, atStart, k)
      {
        var j := k - 1;
        assert r[k] == Displayed(t, b)[j] == DisplayChar(t, b, j);
        assert t[j] == s[k];
      }
    }
  }

  /** `sub` occurs in `s` starting at index `i`. */
  predicate MatchAt(s: string, sub: string, i: int)
  {
    0 <= i <= |s| - |sub| && s[i..i + |sub|] == sub
  }

  /** The substring test `s.includes(sub)`. */
  function Contains(s: string, sub: string): bool
    decreases |s|
  {
    if |s| < |sub| then false
    else if s[..|sub|] == sub then true
    else Contains(s[1..], sub)
  }

  /** `Contains` holds exactly when `sub` occurs somewhere in `s`. */
  lemma {:induction false} ContainsMatches(s: string, sub: string)
    ensures Contains(s, sub) <==> exists i :: MatchAt(s, sub, i)
    decreases |s|
  {
    if |s| >= |sub| {
      if s[..|sub|] == sub {
        assert MatchAt(s, sub, 0);
      } else {
        ShiftWindows(s, sub);
        ContainsMatches(s[1..], sub);
      }
    }
  }

  /** Past a window that does not match, the matches of `s` are those of `s[1..]`. */
  lemma ShiftWindows(s: string, sub: string)
    requires |s| >= |sub| && s[..|sub|] != sub
    ensures (exists i :: MatchAt(s, sub, i)) <==> (exists i :: MatchAt(s[1..], sub, i))
  {
    if i :| MatchAt(s, sub, i) {
      assert i != 0;
      assert s[1..][i - 1..i - 1 + |sub|] == sub;
      assert MatchAt(s[1..], sub, i - 1);
    }
    if i :| MatchAt(s[1..], sub, i) {
      assert s[i + 1..i + 1 + |sub|] == sub;
      assert MatchAt(s, sub, i + 1);
    }
  }

  function DigitChar(d: nat): (c: char)
    requires d < 10
    ensures '0' <= c <= '9' && c as int - '0' as int == d
  {
    ('0' as int + d) as char
  }

  /** The decimal rendering of a counter, as a template literal `${n}` writes it. */
  function NatToString(n: nat): (s: string)
    ensures 1 <= |s|
    ensures forall c :: c in s ==> '0' <= c <= '9'
    ensures s[|s| - 1] == DigitChar(n % 10)
    ensures n < 10 <==> |s| == 1
  {
    if n < 10 then [DigitChar(n)] else NatToString(n / 10) + [DigitChar(n % 10)]
  }

  /** Different counters render differently. */
  lemma {:induction false} NatToStringInjective(n: nat, m: nat)
    requires NatToString(n) == NatToString(m)
    ensures n == m
  {
    var s := NatToString(n);
    assert n % 10 == m % 10;
    if n >= 10 && m >= 10 {
      assert NatToString(n / 10) == s[..|s| - 1] == NatToString(m / 10);
      NatToStringInjective(n / 10, m / 10);
    }
  }
}
