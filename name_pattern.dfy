/** The name pattern `([A-Z][a-zA-Z]*)`, which `@Pattern` applies to the whole string. */
module NamePattern {

  predicate IsUpperAscii(c: char) { 'A' <= c <= 'Z' }

  predicate IsAsciiLetter(c: char) { 'A' <= c <= 'Z' || 'a' <= c <= 'z' }

  /** Reference reading of the pattern: one upper-case ASCII letter, then ASCII letters only. */
  predicate MatchesNamePattern(s: string) {
    |s| > 0 && IsUpperAscii(s[0]) && forall i :: 1 <= i < |s| ==> IsAsciiLetter(s[i])
  }

  /** States of the automaton the pattern compiles to. */
  datatype State = Start | Letters | Reject

  function Step(q: State, c: char): State {
    match q
    case Start => if IsUpperAscii(c) then Letters else Reject
    case Letters => if IsAsciiLetter(c) then Letters else Reject
    case Reject => Reject
  }

  /** The state reached from `q` after reading all of `s`, left to right. */
  function Run(q: State, s: string): State
    decreases |s|
  {
    if s == [] then q else Run(Step(q, s[0]), s[1..])
  }

  /** A full match in the sense of `Matcher.matches()`: the whole input must be consumed
      and leave the automaton in its accepting state. */
  predicate FullMatch(s: string) {
    Run(Start, s) == Letters
  }

  lemma {:induction false} RejectIsFinal(s: string)
    ensures Run(Reject, s) == Reject
    decreases |s|
  {
    if s != [] {
      RejectIsFinal(s[1..]);
    }
  }

  /** From the accepting state the automaton stays accepting exactly on letters. */
  lemma {:induction false} LettersAcceptLetters(s: string)
    ensures Run(Letters, s) == Letters <==> forall i :: 0 <= i < |s| ==> IsAsciiLetter(s[i])
    decreases |s|
  {
    if s != [] {
      var rest := s[1..];
      assert forall k :: 0 <= k < |rest| ==> rest[k] == s[k + 1];
      if IsAsciiLetter(s[0]) {
        LettersAcceptLetters(rest);
        if forall i :: 0 <= i < |rest| ==> IsAsciiLetter(rest[i]) {
          forall i | 0 <= i < |s| ensures IsAsciiLetter(s[i]) {
            if i > 0 {
              assert s[i] == rest[i - 1];
            }
          }
        }
      } else {
        RejectIsFinal(rest);
      }
    }
  }

  /** The automaton accepts exactly the strings the reference reading describes. */
  lemma {:induction false} FullMatchIffPattern(s: string)
    ensures FullMatch(s) <==> MatchesNamePattern(s)
  {
    if s != [] {
      var rest := s[1..];
      assert forall k :: 0 <= k < |rest| ==> rest[k] == s[k + 1];
      if IsUpperAscii(s[0]) {
        LettersAcceptLetters(rest);
        if forall i :: 0 <= i < |rest| ==> IsAsciiLetter(rest[i]) {
          forall i | 1 <= i < |s| ensures IsAsciiLetter(s[i]) {
            assert s[i] == rest[i - 1];
          }
        }
      } else {
        RejectIsFinal(rest);
      }
    }
  }
}
