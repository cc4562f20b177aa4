/**
 * Room codes (server.js, generateRoomCode) and the case folding joinRoom
 * applies to a typed code.
 */
module RoomCodes {

  const Alphabet: string := "ABCDEFGHIJKLMNOPQRSTUVWXYZ"
  const CodeLength: nat := 4

  /** Four upper-case Latin letters. */
  predicate IsRoomCode(s: string) {
    |s| == CodeLength && forall i :: 0 <= i < |s| ==> 'A' <= s[i] <= 'Z'
  }

  lemma AlphabetIsLetters()
    ensures |Alphabet| == 26
    ensures forall k :: 0 <= k < |Alphabet| ==> 'A' <= Alphabet[k] <= 'Z'
  {
  }

  /**
   * Builds the code one random letter at a time. `draws[i]` is the value of
   * `Math.floor(Math.random() * chars.length)` in iteration i, which always lies in [0, 26).
   */
  method GenerateRoomCode(draws: seq<int>) returns (code: string)
    requires |draws| == CodeLength
    requires forall i :: 0 <= i < |draws| ==> 0 <= draws[i] < |Alphabet|
    ensures IsRoomCode(code)
    ensures forall i :: 0 <= i < CodeLength ==> code[i] == Alphabet[draws[i]]
  {
    AlphabetIsLetters();
    code := "";
    for i := 0 to CodeLength
      invariant |code| == i
      invariant forall j :: 0 <= j < i ==> code[j] == Alphabet[draws[j]]
      invariant forall j :: 0 <= j < i ==> 'A' <= code[j] <= 'Z'
    {
      code := code + [Alphabet[draws[i]]];
    }
  }

  /** `toUpperCase` on one character, for the ASCII letters. */
  function UpperChar(c: char): char {
    if 'a' <= c <= 'z' then (c as int - 32) as char else c
  }

  function LowerChar(c: char): char {
    if 'A' <= c <= 'Z' then (c as int + 32) as char else c
  }

  function Upper(s: string): (r: string)
    ensures |r| == |s|
  {
    seq(|s|, i requires 0 <= i < |s| => UpperChar(s[i]))
  }

  /**
   * A room code typed with any mixture of cases is folded back to that code,
   * so joinRoom finds the room whatever case the player typed.
   */
  lemma TypedCodeFindsRoom(code: string, typed: string)
    requires IsRoomCode(code)
    requires |typed| == |code|
    requires forall i :: 0 <= i < |code| ==> typed[i] == code[i] || typed[i] == LowerChar(code[i])
    ensures Upper(typed) == code
  {
    forall i | 0 <= i < |code|
      ensures Upper(typed)[i] == code[i]
    {
      assert 'A' <= code[i] <= 'Z';
    }
  }
}
