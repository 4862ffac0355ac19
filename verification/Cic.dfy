/** The CIC-NUS-6105 challenge: an invertible map on nibble strings, and the 15-byte
    block of PIF RAM it is applied to. */
module Cic {

  type Nibble = x: int | 0 <= x < 16

  type Byte = x: int | 0 <= x < 256

  const LUT0: seq<Nibble> := [0x4, 0x7, 0xA, 0x7, 0xE, 0x5, 0xE, 0x1, 0xC, 0xF, 0x8, 0xF, 0x6, 0x3, 0x6, 0x9]

  const LUT1: seq<Nibble> := [0x4, 0x1, 0xA, 0x7, 0xE, 0x5, 0xE, 0x1, 0xC, 0x9, 0x8, 0x5, 0x6, 0x3, 0xC, 0x9]

  /** The key to add next and whether the second table is in use. */
  datatype State = State(key: Nibble, second: bool)

  const START: State := State(0xB, false)

  function Answer(s: State, challenge: Nibble): Nibble { (s.key + 5 * challenge) % 16 }

  /** The next state depends on the answer only. */
  function Next(s: State, rsp: Nibble): State {
    var lut := if s.second then LUT1 else LUT0;
    var sgn := rsp / 8;
    var mag := (if sgn == 1 then 15 - rsp else rsp) % 8;
    var mod := if mag % 3 == 1 then sgn else 1 - sgn;
    var mod1 := if s.second && (rsp == 0x1 || rsp == 0x9) then 1 else mod;
    var mod2 := if s.second && (rsp == 0xB || rsp == 0xE) then 0 else mod1;
    State(lut[rsp], mod2 == 1)
  }

  /** With the first table, complementing an answer complements the next key about 13 and
      changes the table, so eight keys fix all of it. */
  lemma NextComplement(k: Nibble, r: Nibble)
    ensures
      var n, c := Next(State(k, false), r), Next(State(k, false), 15 - r);
      && c.second != n.second && (n.key + c.key) % 16 == 13
      && (r < 8 ==> (n.second <==> r % 3 != 1) && n.key == [4, 7, 10, 7, 14, 5, 14, 1][r])
  {}

  /** The second table gives the same next state but for four answers, where the key moves
      by 6 and the next table is fixed. */
  lemma NextOfSecond(k: Nibble, r: Nibble)
    ensures
      var first, second := Next(State(k, false), r), Next(State(k, true), r);
      if r == 1 || r == 9 then second == State((first.key - 6) % 16, true)
      else if r == 0xB || r == 0xE then second == State((first.key + 6) % 16, false)
      else second == first
  {}

  function Respond(s: State, chl: seq<Nibble>): (rsp: seq<Nibble>)
    ensures |rsp| == |chl|
    decreases |chl|
  {
    if chl == [] then []
    else
      var r := Answer(s, chl[0]);
      [r] + Respond(Next(s, r), chl[1..])
  }

  /** Undoing one answer: 13 is the inverse of 5 modulo 16. */
  function Question(s: State, rsp: Nibble): Nibble { (13 * (rsp - s.key)) % 16 }

  function Recover(s: State, rsp: seq<Nibble>): (chl: seq<Nibble>)
    ensures |chl| == |rsp|
    decreases |rsp|
  {
    if rsp == [] then [] else [Question(s, rsp[0])] + Recover(Next(s, rsp[0]), rsp[1..])
  }

  lemma QuestionAnswer(s: State, x: Nibble)
    ensures Question(s, Answer(s, x)) == x
    ensures Answer(s, Question(s, x)) == x
  {
    Undo(s.key, x);
  }

  lemma Undo(k: Nibble, x: Nibble)
    ensures (13 * ((k + 5 * x) % 16 - k)) % 16 == x
    ensures (k + 5 * ((13 * (x - k)) % 16)) % 16 == x
  {
    var q, p := (k + 5 * x) / 16, (13 * (x - k)) / 16;
    assert 13 * ((k + 5 * x) % 16 - k) == x + 16 * (4 * x - 13 * q);
    Multiple16(x, 4 * x - 13 * q);
    assert k + 5 * ((13 * (x - k)) % 16) == x + 16 * (4 * (x - k) - 5 * p);
    Multiple16(x, 4 * (x - k) - 5 * p);
  }

  lemma Multiple16(x: Nibble, m: int)
    ensures (x + 16 * m) % 16 == x
  {}

  /** The first answer is 5 times the nibble plus 11; after it the response goes on from
      the state the answer gives, wherever it stands. */
  lemma RespondStep(s: State, x: Nibble, rest: seq<Nibble>)
    ensures Respond(s, [x] + rest) == [(s.key + 5 * x) % 16] + Respond(Next(s, (s.key + 5 * x) % 16), rest)
    ensures Respond(START, [x] + rest)[0] == (11 + 5 * x) % 16 && !START.second
  {
    hide Next;
    assert ([x] + rest)[1..] == rest;
  }

  /** The challenge is recovered from the response alone. */
  lemma {:induction false} ChallengeRecovered(s: State, chl: seq<Nibble>)
    ensures Recover(s, Respond(s, chl)) == chl
    decreases |chl|
  {
    if chl != [] {
      QuestionAnswer(s, chl[0]);
      ChallengeRecovered(Next(s, Answer(s, chl[0])), chl[1..]);
    }
  }

  /** Every nibble string is the response to some challenge. */
  lemma {:induction false} ResponseReached(s: State, rsp: seq<Nibble>)
    ensures Respond(s, Recover(s, rsp)) == rsp
    decreases |rsp|
  {
    if rsp != [] {
      QuestionAnswer(s, rsp[0]);
      ResponseReached(Next(s, rsp[0]), rsp[1..]);
    }
  }

  function StateAfter(s: State, rsp: seq<Nibble>): State
    decreases |rsp|
  {
    if rsp == [] then s else StateAfter(Next(s, rsp[0]), rsp[1..])
  }

  /** The response to a longer challenge continues the response to its prefix, from a
      state fixed by that response. */
  lemma {:induction false} ResponseSplits(s: State, a: seq<Nibble>, b: seq<Nibble>)
    ensures Respond(s, a + b) == Respond(s, a) + Respond(StateAfter(s, Respond(s, a)), b)
    decreases |a|
  {
    if a == [] {
      assert a + b == b;
    } else {
      assert (a + b)[1..] == a[1..] + b;
      hide Next, Answer;
      var r := Answer(s, a[0]);
      assert Respond(s, a)[1..] == Respond(Next(s, r), a[1..]);
      ResponseSplits(Next(s, r), a[1..], b);
    }
  }

  // ----- Bytes -----

  function ByteOf(high: int, low: int): (b: Byte)
    requires 0 <= high < 16 && 0 <= low < 16
    ensures b / 16 == high && b % 16 == low
  {
    16 * high + low
  }

  function Split(bytes: seq<Byte>): (nibbles: seq<Nibble>)
    ensures |nibbles| == 2 * |bytes|
  {
    if bytes == [] then [] else [bytes[0] / 16, bytes[0] % 16] + Split(bytes[1..])
  }

  function Join(nibbles: seq<Nibble>): (bytes: seq<Byte>)
    requires |nibbles| % 2 == 0
    ensures 2 * |bytes| == |nibbles|
  {
    if nibbles == [] then [] else [ByteOf(nibbles[0], nibbles[1])] + Join(nibbles[2..])
  }

  lemma {:induction false} JoinSplit(bytes: seq<Byte>)
    ensures Join(Split(bytes)) == bytes
  {
    if bytes != [] {
      JoinSplit(bytes[1..]);
      assert Split(bytes)[2..] == Split(bytes[1..]);
    }
  }

  lemma {:induction false} SplitJoin(nibbles: seq<Nibble>)
    requires |nibbles| % 2 == 0
    ensures Split(Join(nibbles)) == nibbles
  {
    if nibbles != [] {
      SplitJoin(nibbles[2..]);
      assert nibbles == [nibbles[0], nibbles[1]] + nibbles[2..];
    }
  }

  lemma {:induction false} SplitAt(bytes: seq<Byte>, i: nat)
    requires i < |bytes|
    ensures Split(bytes)[2 * i] == bytes[i] / 16 && Split(bytes)[2 * i + 1] == bytes[i] % 16
  {
    if i > 0 {
      SplitAt(bytes[1..], i - 1);
    }
  }

  lemma {:induction false} JoinAt(nibbles: seq<Nibble>, i: nat)
    requires |nibbles| % 2 == 0 && 2 * i < |nibbles|
    ensures Join(nibbles)[i] == ByteOf(nibbles[2 * i], nibbles[2 * i + 1])
  {
    hide ByteOf;
    var rest := nibbles[2..];
    if i > 0 {
      JoinAt(rest, i - 1);
      assert rest[2 * (i - 1)] == nibbles[2 * i] && rest[2 * (i - 1) + 1] == nibbles[2 * i + 1];
      assert Join(nibbles)[i] == Join(rest)[i - 1];
    }
  }

  /** The map on whole blocks of bytes. */
  function Challenge(block: seq<Byte>): (response: seq<Byte>)
    ensures |response| == |block|
  {
    Join(Respond(START, Split(block)))
  }

  function Unchallenge(response: seq<Byte>): (block: seq<Byte>)
    ensures |block| == |response|
  {
    Join(Recover(START, Split(response)))
  }

  /** On byte blocks the map is a bijection: distinct challenges get distinct
      responses, and each response has its challenge. */
  lemma ChallengeIsInvertible(block: seq<Byte>)
    ensures Unchallenge(Challenge(block)) == block
    ensures Challenge(Unchallenge(block)) == block
  {
    hide Join, Split, Respond, Recover;
    SplitJoin(Respond(START, Split(block)));
    ChallengeRecovered(START, Split(block));
    SplitJoin(Recover(START, Split(block)));
    ResponseReached(START, Split(block));
    JoinSplit(block);
  }

  lemma DistinctResponses(a: seq<Byte>, b: seq<Byte>)
    ensures Challenge(a) == Challenge(b) <==> a == b
  {
    ChallengeIsInvertible(a);
    ChallengeIsInvertible(b);
  }

  // ----- In place -----

  /** Answers `len` challenge nibbles. */
  method Nus6105(chl: array<Nibble>, rsp: array<Nibble>, len: nat)
    requires len <= chl.Length && len <= rsp.Length && chl != rsp
    modifies rsp
    ensures rsp[..len] == Respond(START, chl[..len]) && rsp[len..] == old(rsp[len..])
  {
    var s := START;
    var i := 0;
    while i < len
      invariant 0 <= i <= len
      invariant rsp[len..] == old(rsp[len..])
      invariant rsp[..i] == Respond(START, chl[..i]) && s == StateAfter(START, rsp[..i])
    {
      ghost var before := rsp[..i];
      ResponseSplits(START, chl[..i], [chl[i]]);
      assert chl[..i + 1] == chl[..i] + [chl[i]];
      rsp[i] := Answer(s, chl[i]);
      assert rsp[..i + 1] == before + [rsp[i]];
      AfterOne(START, before, rsp[i]);
      s := Next(s, rsp[i]);
      i := i + 1;
    }
  }

  lemma {:induction false} AfterOne(s: State, rsp: seq<Nibble>, r: Nibble)
    ensures StateAfter(s, rsp + [r]) == Next(StateAfter(s, rsp), r)
    decreases |rsp|
  {
    if rsp == [] {
      assert rsp + [r] == [r];
    } else {
      assert (rsp + [r])[1..] == rsp[1..] + [r];
      AfterOne(Next(s, rsp[0]), rsp[1..], r);
    }
  }

  const BLOCK: nat := 0x30

  method SplitBlock(pifRam: array<Byte>) returns (challenge: array<Nibble>)
    requires pifRam.Length == 64
    ensures fresh(challenge) && challenge.Length == 30 && challenge[..] == Split(pifRam[BLOCK..BLOCK + 15])
  {
    challenge := new Nibble[30](_ => 0);
    ghost var block := pifRam[BLOCK..BLOCK + 15];
    for i := 0 to 15
      invariant forall k :: 0 <= k < 2 * i ==> challenge[k] == Split(block)[k]
    {
      SplitAt(block, i);
      challenge[i * 2] := pifRam[BLOCK + i] / 16;
      challenge[i * 2 + 1] := pifRam[BLOCK + i] % 16;
    }
  }

  method JoinBlock(response: array<Nibble>, pifRam: array<Byte>)
    requires pifRam.Length == 64 && response.Length == 30
    modifies pifRam
    ensures pifRam[BLOCK..BLOCK + 15] == Join(response[..])
    ensures pifRam[..BLOCK] == old(pifRam[..BLOCK]) && pifRam[BLOCK + 15..] == old(pifRam[BLOCK + 15..])
  {
    ghost var joined := Join(response[..]);
    for i := 0 to 15
      invariant forall k :: 0 <= k < i ==> pifRam[BLOCK + k] == joined[k]
      invariant forall k :: 0 <= k < 64 && !(BLOCK <= k < BLOCK + i) ==> pifRam[k] == old(pifRam[k])
    {
      JoinAt(response[..], i);
      pifRam[BLOCK + i] := ByteOf(response[i * 2], response[i * 2 + 1]);
    }
  }

  /** Replaces bytes 0x30 to 0x3E of PIF RAM, the challenge, by the response. */
  method CicChallenge(pifRam: array<Byte>)
    requires pifRam.Length == 64
    modifies pifRam
    ensures pifRam[0x30..0x3F] == Challenge(old(pifRam[0x30..0x3F]))
    ensures pifRam[..0x30] == old(pifRam[..0x30]) && pifRam[0x3F..] == old(pifRam[0x3F..])
  {
    var challenge := SplitBlock(pifRam);
    var response := new Nibble[30](_ => 0);
    Nus6105(challenge, response, 30);
    assert challenge[..30] == challenge[..] && response[..30] == response[..];
    JoinBlock(response, pifRam);
  }
}
