/**
 `internal/address/base58.go`: base58 strings and their checksummed form, after sections 3 and 4 of
 draft-msporny-base58. The big integer of the code is a natural number; SHA-256 is a parameter.
 */
module Base58 {
  import opened Ints
  import opened WireTypes
  import opened Lists
  import opened Radix

  datatype DecodeError = InvalidCharacter | TooShort | ChecksumMismatch

  // ---- the alphabet ----

  /** Digits, capitals without I and O, small letters without l. */
  function Alphabet(): (a: string)
    ensures |a| == 58
  {
    "123456789" + "ABCDEFGH" + "JKLMN" + "PQRSTUVWXYZ" + "abcdefghijk" + "mnopqrstuvwxyz"
  }

  /** The code of the d-th letter. */
  function Code(d: nat): nat {
    if d < 9 then 49 + d
    else if d < 17 then 65 + (d - 9)
    else if d < 22 then 74 + (d - 17)
    else if d < 33 then 80 + (d - 22)
    else if d < 44 then 97 + (d - 33)
    else 109 + (d - 44)
  }

  ghost predicate Consecutive(s: string, code: nat) {
    forall i :: 0 <= i < |s| ==> s[i] as int == code + i
  }

  lemma Runs()
    ensures Consecutive("123456789", 49) && Consecutive("ABCDEFGH", 65) && Consecutive("JKLMN", 74)
    ensures Consecutive("PQRSTUVWXYZ", 80) && Consecutive("abcdefghijk", 97) && Consecutive("mnopqrstuvwxyz", 109)
  {
  }

  lemma LetterCode(d: nat)
    requires d < 58
    ensures Alphabet()[d] as int == Code(d)
  {
    Runs();
  }

  lemma AlphabetIncreases(i: nat, j: nat)
    requires i < j < 58
    ensures Alphabet()[i] < Alphabet()[j]
  {
    hide Alphabet;
    LetterCode(i);
    LetterCode(j);
  }

  function IndexFrom(c: char, i: nat): (r: Option<nat>)
    requires i <= 58
    ensures r.Some? ==> i <= r.value < 58 && Alphabet()[r.value] == c
    ensures r.None? ==> forall j :: i <= j < 58 ==> Alphabet()[j] != c
    decreases 58 - i
  {
    if i == 58 then None else if Alphabet()[i] == c then Some(i) else IndexFrom(c, i + 1)
  }

  function IndexRune(c: char): (r: Option<nat>)
    ensures r.Some? ==> r.value < 58 && Alphabet()[r.value] == c
    ensures r.None? ==> forall j :: 0 <= j < 58 ==> Alphabet()[j] != c
  {
    IndexFrom(c, 0)
  }

  lemma IndexOfLetter(d: nat)
    requires d < 58
    ensures IndexRune(Alphabet()[d]) == Some(d)
  {
    var r := IndexRune(Alphabet()[d]).value;
    if r < d {
      AlphabetIncreases(r, d);
    } else if d < r {
      AlphabetIncreases(d, r);
    }
  }

  function Spell(ds: seq<nat>): (s: string)
    requires forall i :: 0 <= i < |ds| ==> ds[i] < 58
    ensures |s| == |ds|
    ensures forall i :: 0 <= i < |ds| ==> s[i] == Alphabet()[ds[i]]
  {
    if ds == [] then [] else [Alphabet()[ds[0]]] + Spell(ds[1..])
  }

  predicate InAlphabet(s: string) {
    forall i :: 0 <= i < |s| ==> IndexRune(s[i]).Some?
  }

  function Indices(s: string): (ds: seq<nat>)
    requires InAlphabet(s)
    ensures |ds| == |s|
    ensures forall i :: 0 <= i < |s| ==> ds[i] < 58 && ds[i] == IndexRune(s[i]).value
  {
    if s == [] then [] else Indices(s[..|s| - 1]) + [IndexRune(s[|s| - 1]).value]
  }

  lemma SpellIndices(s: string)
    requires InAlphabet(s)
    ensures Spell(Indices(s)) == s
  {
  }

  lemma IndicesSpell(ds: seq<nat>)
    requires forall i :: 0 <= i < |ds| ==> ds[i] < 58
    ensures InAlphabet(Spell(ds)) && Indices(Spell(ds)) == ds
  {
    hide Alphabet, IndexRune, Spell, Indices;
    forall i | 0 <= i < |ds|
      ensures IndexRune(Spell(ds)[i]) == Some(ds[i])
    {
      IndexOfLetter(ds[i]);
    }
  }

  // ---- from one base to another ----

  function Lead(ds: seq<nat>): (k: nat)
    ensures k <= |ds|
    ensures forall i :: 0 <= i < k ==> ds[i] == 0
    ensures k < |ds| ==> ds[k] != 0
  {
    if ds == [] || ds[0] != 0 then 0 else 1 + Lead(ds[1..])
  }

  /** The same number in another base, with as many leading zeros as before. */
  function Convert(source: nat, target: nat, ds: seq<nat>): (r: seq<nat>)
    requires target > 1
    ensures target >= 1 && forall i :: 0 <= i < |r| ==> r[i] < target
  {
    Zeros(Lead(ds)) + Digits(target, Value(source, ds))
  }

  lemma LeadIs(ds: seq<nat>, k: nat)
    requires k <= |ds| && (forall i :: 0 <= i < k ==> ds[i] == 0) && (k < |ds| ==> ds[k] != 0)
    ensures Lead(ds) == k
  {
  }

  /** Converting there and back gives the digits one started from, leading zeros included. */
  lemma ConvertBack(source: nat, target: nat, ds: seq<nat>)
    requires source > 1 && target > 1
    requires forall i :: 0 <= i < |ds| ==> ds[i] < source
    ensures Convert(target, source, Convert(source, target, ds)) == ds
  {
    var k := Lead(ds);
    var zeros: seq<nat>, rest := Zeros(k), ds[k..];
    assert ds == zeros + rest;
    LeadingZeros(source, zeros, rest);
    var there := Digits(target, Value(source, ds));
    var r := Convert(source, target, ds);
    assert r == zeros + there;
    LeadIs(r, k);
    LeadingZeros(target, zeros, there);
    ValueOfDigits(target, Value(source, ds));
    DigitsOfValue(source, rest);
    hide *;
  }

  // ---- base58 ----

  function Encoded(b: seq<byte>): string {
    Spell(Convert(256, 58, b))
  }

  function Decoded(s: string): Option<seq<byte>> {
    if InAlphabet(s) then Some(Convert(58, 256, Indices(s))) else None
  }

  /** Decoding what was encoded gives the bytes back, whatever zeros they start with. */
  lemma DecodeUndoesEncode(b: seq<byte>)
    ensures Decoded(Encoded(b)) == Some(b)
  {
    hide Convert, Spell, Indices;
    IndicesSpell(Convert(256, 58, b));
    ConvertBack(256, 58, b);
  }

  /** A string decodes exactly when it is made of letters of the alphabet, and then encodes back to itself. */
  lemma EncodeUndoesDecode(s: string)
    ensures Decoded(s).Some? <==> forall i :: 0 <= i < |s| ==> s[i] in Alphabet()
    ensures Decoded(s).Some? ==> Encoded(Decoded(s).value) == s
  {
    hide Convert, Spell, Indices, IndexRune;
    forall i | 0 <= i < |s|
      ensures IndexRune(s[i]).Some? <==> s[i] in Alphabet()
    {
      if IndexRune(s[i]).Some? {
        assert Alphabet()[IndexRune(s[i]).value] == s[i];
      }
    }
    if InAlphabet(s) {
      SpellIndices(s);
      ConvertBack(58, 256, Indices(s));
    }
  }

  /** In-place exchange from both ends. */
  method Reverse(b: array<char>)
    modifies b
    ensures b[..] == Reversed(old(b[..]))
  {
    ghost var before := b[..];
    var n := b.Length;
    var i, j := 0, n - 1;
    while i < j
      invariant 0 <= i && i + j == n - 1 && i <= j + 2
      invariant forall k :: 0 <= k < i ==> b[k] == before[n - 1 - k] && b[n - 1 - k] == before[k]
      invariant forall k :: i <= k <= j ==> b[k] == before[k]
    {
      b[i], b[j] := b[j], b[i];
      i, j := i + 1, j - 1;
    }
    forall k | 0 <= k < n
      ensures b[..][k] == Reversed(before)[k]
    {
      ReversedIndex(before, k);
    }
  }

  lemma SpellCons(d: nat, ds: seq<nat>)
    requires d < 58 && forall i :: 0 <= i < |ds| ==> ds[i] < 58
    ensures Spell([d] + ds) == [Alphabet()[d]] + Spell(ds)
  {
    hide Alphabet;
    assert ([d] + ds)[1..] == ds;
  }

  lemma ReversedSnoc<T>(s: seq<T>, x: T)
    ensures Reversed(s + [x]) == [x] + Reversed(s)
  {
    assert (s + [x])[..|s|] == s;
  }

  /** The division loop, which writes the last digit first. */
  method WriteDigits(n: nat) returns (answer: string)
    ensures Reversed(answer) == Spell(Digits(58, n))
  {
    hide Alphabet, Spell, Reversed, Digits;
    var x := n;
    answer := [];
    ghost var tail: seq<nat> := [];
    NothingWritten();
    while x > 0
      invariant forall i :: 0 <= i < |tail| ==> tail[i] < 58
      invariant Digits(58, n) == Digits(58, x) + tail
      invariant Reversed(answer) == Spell(tail)
      decreases x
    {
      DigitsStep(58, x);
      var mod := x % 58;
      x := x / 58;
      SpellCons(mod, tail);
      ReversedSnoc(answer, Alphabet()[mod]);
      tail := [mod] + tail;
      answer := answer + [Alphabet()[mod]];
    }
    assert Digits(58, n) == tail;
  }

  method EncodeBase58(b: seq<byte>) returns (s: string)
    ensures s == Encoded(b)
  {
    hide Alphabet, Spell, Lead, Reversed, Value, Digits;
    var answer := WriteDigits(Value(256, b));
    ghost var digits := Digits(58, Value(256, b));
    assert Zeros(0) + digits == digits;
    var i := 0;
    while i < |b| && b[i] == 0
      invariant 0 <= i <= |b| && forall j :: 0 <= j < i ==> b[j] == 0
      invariant Reversed(answer) == Spell(Zeros(i) + digits)
    {
      SpellCons(0, Zeros(i) + digits);
      assert Zeros(i + 1) + digits == [0] + (Zeros(i) + digits);
      ReversedSnoc(answer, Alphabet()[0]);
      answer := answer + [Alphabet()[0]];
      i := i + 1;
    }
    LeadIs(b, i);
    var turned := new char[|answer|](k requires 0 <= k < |answer| => answer[k]);
    assert turned[..] == answer;
    Reverse(turned);
    s := turned[..];
  }

  lemma NothingWritten()
    ensures Reversed<char>([]) == Spell([]) && Digits(58, 0) == []
  {
  }

  /** The multiplication loop. */
  method ReadDigits(s: string) returns (r: Option<nat>)
    ensures r == if InAlphabet(s) then Some(Value(58, Indices(s))) else None
  {
    hide Alphabet, Value, IndexRune;
    var answer: nat := 0;
    ValueOfNothing(58);
    assert s[..0] == [];
    for i := 0 to |s|
      invariant InAlphabet(s[..i])
      invariant answer == Value(58, Indices(s[..i]))
    {
      var index := IndexRune(s[i]);
      if index.None? {
        return None;
      }
      assert s[..i + 1][..i] == s[..i];
      assert Indices(s[..i + 1]) == Indices(s[..i]) + [index.value];
      ValueSnoc(58, Indices(s[..i]), index.value);
      answer := answer * 58 + index.value;
    }
    assert s[..|s|] == s;
    r := Some(answer);
  }

  method DecodeBase58(s: string) returns (r: Option<seq<byte>>)
    ensures r == Decoded(s)
  {
    hide Alphabet, Lead, Digits, Value, IndexRune, Indices;
    var answer := ReadDigits(s);
    if answer.None? {
      return None;
    }
    var decoded: seq<byte> := Digits(256, answer.value);
    ghost var digits := decoded;
    assert Zeros(0) + digits == digits;
    var i := 0;
    FirstLetter(s);
    while i < |s| && s[i] as int % 256 == Alphabet()[0] as int
      invariant 0 <= i <= |s| && forall j :: 0 <= j < i ==> Indices(s)[j] == 0
      invariant decoded == Zeros(i) + digits
    {
      assert Zeros(i + 1) + digits == [0] + (Zeros(i) + digits);
      decoded := [0] + decoded;
      i := i + 1;
    }
    LeadIs(Indices(s), i);
    r := Some(decoded);
  }

  /** Only the first letter has its code, even modulo 256. */
  lemma FirstLetter(s: string)
    requires InAlphabet(s)
    ensures forall i :: 0 <= i < |s| ==> (s[i] as int % 256 == Alphabet()[0] as int <==> Indices(s)[i] == 0)
  {
    hide Alphabet, Indices, IndexRune;
    LetterCode(0);
    LetterCode(57);
    forall i | 0 <= i < |s|
      ensures s[i] as int % 256 == Alphabet()[0] as int <==> Indices(s)[i] == 0
    {
      var d := IndexRune(s[i]).value;
      if d > 0 {
        AlphabetIncreases(0, d);
      }
      if d < 57 {
        AlphabetIncreases(d, 57);
      }
    }
  }

  // ---- with a checksum ----

  function Checksum(sha256: seq<byte> -> Bytes32, data: seq<byte>): (c: seq<byte>)
    ensures |c| == 4
  {
    sha256(sha256(data))[..4]
  }

  function CheckEncoded(sha256: seq<byte> -> Bytes32, version: byte, payload: seq<byte>): string {
    var data := [version] + payload;
    Encoded(data + Checksum(sha256, data))
  }

  function CheckDecoded(sha256: seq<byte> -> Bytes32, s: string): Result<(byte, seq<byte>), DecodeError> {
    match Decoded(s)
    case None => Err(InvalidCharacter)
    case Some(decoded) =>
      if |decoded| < 5 then Err(TooShort)
      else
        var body := decoded[..|decoded| - 4];
        if decoded[|decoded| - 4..] != Checksum(sha256, body) then Err(ChecksumMismatch)
        else Ok((body[0], body[1..]))
  }

  method EncodeBase58Check(sha256: seq<byte> -> Bytes32, version: byte, payload: seq<byte>) returns (s: string)
    ensures s == CheckEncoded(sha256, version, payload)
  {
    var data := [version] + payload;
    data := data + Checksum(sha256, data);
    s := EncodeBase58(data);
  }

  method DecodeBase58Check(sha256: seq<byte> -> Bytes32, s: string) returns (r: Result<(byte, seq<byte>), DecodeError>)
    ensures r == CheckDecoded(sha256, s)
  {
    var decoded := DecodeBase58(s);
    if decoded.None? {
      return Err(InvalidCharacter);
    }
    var bytes := decoded.value;
    if |bytes| < 5 {
      return Err(TooShort);
    }
    var body := bytes[..|bytes| - 4];
    var gotChecksum := bytes[|bytes| - 4..];
    if gotChecksum != Checksum(sha256, body) {
      return Err(ChecksumMismatch);
    }
    r := Ok((body[0], body[1..]));
  }

  /** The checked form decodes to a version and payload exactly when it is their encoding. */
  lemma CheckedRoundTrip(sha256: seq<byte> -> Bytes32, s: string, version: byte, payload: seq<byte>)
    ensures CheckDecoded(sha256, s) == Ok((version, payload)) <==> s == CheckEncoded(sha256, version, payload)
  {
    hide Encoded, Decoded;
    var body := [version] + payload;
    var data := body + Checksum(sha256, body);
    assert data[..|data| - 4] == body && data[|data| - 4..] == Checksum(sha256, body);
    DecodeUndoesEncode(data);
    EncodeUndoesDecode(s);
    if CheckDecoded(sha256, s) == Ok((version, payload)) {
      var bytes := Decoded(s).value;
      assert bytes[..|bytes| - 4] == body;
      assert bytes == data;
    }
  }
}
