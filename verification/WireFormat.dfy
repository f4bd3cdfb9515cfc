/**
 The message format the three programs share: a header line, the payload size as a native
 size_t (eight bytes, least significant first), and the payload.
 */
module WireFormat {
  import opened Options

  type byte = x: int | 0 <= x < 256
  type Bytes = seq<byte>

  const NUL: byte := 0
  const NEWLINE: byte := 10
  const SPACE: byte := 32

  /** "PUT" and "INTERFACE_PUT". */
  const PUT: Bytes := [80, 85, 84]
  const INTERFACE_PUT: Bytes := [73, 78, 84, 69, 82, 70, 65, 67, 69, 95, 80, 85, 84]

  const SIZE_BYTES: nat := 8

  datatype Verb = InterfacePut | Put

  datatype Frame = Frame(name: Bytes, payload: Bytes)

  // ---------------------------------------------------------------------------
  // Sizes
  // ---------------------------------------------------------------------------

  /** 256 to the k. */
  function Radix(k: nat): (r: nat)
    ensures r > 0
  {
    if k == 0 then 1 else 256 * Radix(k - 1)
  }

  /** The k least significant bytes of n, least significant first. */
  function Encode(n: nat, k: nat): (s: Bytes)
    ensures |s| == k
  {
    if k == 0 then [] else [(n % 256) as byte] + Encode(n / 256, k - 1)
  }

  function Decode(s: Bytes): (n: nat)
    ensures n < Radix(|s|)
  {
    if s == [] then 0 else s[0] + 256 * Decode(s[1..])
  }

  function EncodeSize(n: nat): Bytes {
    Encode(n, SIZE_BYTES)
  }

  lemma {:induction false} DecodeEncode(n: nat, k: nat)
    requires n < Radix(k)
    ensures Decode(Encode(n, k)) == n
  {
    if k != 0 {
      DecodeEncode(n / 256, k - 1);
    }
  }

  lemma {:induction false} EncodeDecode(s: Bytes)
    ensures Encode(Decode(s), |s|) == s
  {
    if s != [] {
      EncodeDecode(s[1..]);
      var n := Decode(s);
      assert n % 256 == s[0] && n / 256 == Decode(s[1..]);
    }
  }

  /** The effect of `((char*) &v)[i] = b` on an unsigned integer v. */
  function SetByte(v: nat, i: nat, b: byte): nat {
    if i == 0 then v / 256 * 256 + b else v % 256 + 256 * SetByte(v / 256, i - 1, b)
  }

  lemma Digits(high: nat, low: byte)
    ensures (256 * high + low) / 256 == high && (256 * high + low) % 256 == low
  {
  }

  lemma {:induction false} SetByteIs(v: nat, i: nat, b: byte, k: nat)
    requires i < k && v < Radix(k)
    ensures SetByte(v, i, b) < Radix(k)
    ensures Encode(SetByte(v, i, b), k) == Encode(v, k)[i := b]
  {
    var high, low: byte := v / 256, v % 256;
    assert high < Radix(k - 1);
    if i == 0 {
      Digits(high, b);
      assert SetByte(v, i, b) == 256 * high + b;
    } else {
      SetByteIs(high, i - 1, b, k - 1);
      Digits(SetByte(high, i - 1, b), low);
      assert SetByte(v, i, b) == 256 * SetByte(high, i - 1, b) + low;
    }
  }

  /** Assembling `s` byte by byte, in order, inside whatever value the variable held before. */
  function Assemble(v: nat, s: Bytes, i: nat): nat
    requires i <= |s|
  {
    if i == 0 then v else SetByte(Assemble(v, s, i - 1), i - 1, s[i - 1])
  }

  lemma Overwrite(s: Bytes, t: Bytes, i: nat)
    requires 0 < i <= |s| == |t|
    ensures (s[..i - 1] + t[i - 1..])[i - 1 := s[i - 1]] == s[..i] + t[i..]
  {
  }

  lemma {:induction false} AssembledBytes(v: nat, s: Bytes, i: nat)
    requires i <= |s| && v < Radix(|s|)
    ensures Assemble(v, s, i) < Radix(|s|)
    ensures Encode(Assemble(v, s, i), |s|) == s[..i] + Encode(v, |s|)[i..]
  {
    if i > 0 {
      AssembledBytes(v, s, i - 1);
      SetByteIs(Assemble(v, s, i - 1), i - 1, s[i - 1], |s|);
      Overwrite(s, Encode(v, |s|), i);
    }
  }

  lemma SizesInRange()
    ensures Radix(SIZE_BYTES) == 0x1_0000_0000_0000_0000
  {
    assert Radix(4) == 0x1_0000_0000;
    assert Radix(8) == 256 * Radix(7) && Radix(7) == 256 * Radix(6) && Radix(6) == 256 * Radix(5);
  }

  /** In-place assembly of the eight bytes of a size recovers it, whatever was there before. */
  lemma SizeRoundTrip(n: nat, before: nat)
    requires n < 0x1_0000_0000_0000_0000 && before < 0x1_0000_0000_0000_0000
    ensures |EncodeSize(n)| == 8 && Assemble(before, EncodeSize(n), 8) == n
  {
    SizesInRange();
    var s := EncodeSize(n);
    AssembledBytes(before, s, SIZE_BYTES);
    assert s[..SIZE_BYTES] + Encode(before, SIZE_BYTES)[SIZE_BYTES..] == s;
    DecodeEncode(Assemble(before, s, SIZE_BYTES), SIZE_BYTES);
    DecodeEncode(n, SIZE_BYTES);
  }

  // ---------------------------------------------------------------------------
  // C strings
  // ---------------------------------------------------------------------------

  /** The bytes before the first occurrence of `b`, or all of them. */
  function Before(s: Bytes, b: byte): (r: Bytes)
    ensures |r| <= |s| && r == s[..|r|] && b !in r
    ensures |r| < |s| ==> s[|r|] == b
  {
    if s == [] || s[0] == b then [] else [s[0]] + Before(s[1..], b)
  }

  lemma {:induction false} BeforeOfSplit(s: Bytes, b: byte, rest: Bytes)
    requires b !in s
    ensures Before(s, b) == s
    ensures Before(s + [b] + rest, b) == s
  {
    if s != [] {
      assert (s + [b] + rest)[1..] == s[1..] + [b] + rest;
      BeforeOfSplit(s[1..], b, rest);
    }
  }

  /** A buffer read as a NUL-terminated string. */
  function CString(buffer: Bytes): Bytes {
    Before(buffer, NUL)
  }

  /** A file name both programs can put in a header line. */
  predicate GoodName(name: Bytes) {
    name != [] && NUL !in name && NEWLINE !in name
  }

  function Word(verb: Verb): Bytes {
    match verb case InterfacePut => INTERFACE_PUT case Put => PUT
  }

  function HeaderText(verb: Verb, name: Bytes): Bytes {
    Word(verb) + [SPACE] + name
  }

  /** A whole message as do_put and the worker print it, or as the interface does. */
  function Print(verb: Verb, f: Frame): Bytes {
    HeaderText(verb, f.name) + [NEWLINE] + EncodeSize(|f.payload|) + f.payload
  }

  function VerbOf(text: Bytes): Option<Verb> {
    if INTERFACE_PUT <= text then Some(InterfacePut)
    else if PUT <= text then Some(Put)
    else None
  }

  /** What follows the first space. */
  function NameOf(text: Bytes): Bytes {
    var word := Before(text, SPACE);
    if |word| < |text| then text[|word| + 1..] else []
  }

  /** The master's reading of a header line. */
  function ParseHeader(line: Bytes): Option<(Verb, Bytes)> {
    var text := CString(line);
    match VerbOf(text)
    case None => None
    case Some(verb) => if NameOf(text) == [] then None else Some((verb, NameOf(text)))
  }

  lemma VerbOfWord(verb: Verb, rest: Bytes)
    ensures VerbOf(Word(verb) + rest) == Some(verb)
    ensures NUL !in Word(verb) && SPACE !in Word(verb) && NEWLINE !in Word(verb)
  {
    var text := Word(verb) + rest;
    assert text[0] == Word(verb)[0];
    assert Word(verb) <= text;
  }

  lemma NameAfterWord(word: Bytes, name: Bytes)
    requires SPACE !in word
    ensures NameOf(word + [SPACE] + name) == name
  {
    BeforeOfSplit(word, SPACE, name);
  }

  lemma HeaderRoundTrip(verb: Verb, name: Bytes)
    requires GoodName(name)
    ensures ParseHeader(HeaderText(verb, name)) == Some((verb, name))
    ensures NEWLINE !in HeaderText(verb, name)
  {
    VerbOfWord(verb, [SPACE] + name);
    assert Word(verb) + ([SPACE] + name) == HeaderText(verb, name);
    NameAfterWord(Word(verb), name);
    BeforeOfSplit(HeaderText(verb, name), NUL, []);
  }

  /** The letters a verb is recognised by. */
  function Letters(verb: Verb): Bytes {
    match verb case InterfacePut => [73, 78, 84, 69, 82, 70, 65, 67, 69, 95, 80, 85, 84] case Put => [80, 85, 84]
  }

  /** A word that starts with the verb's letters, a space, and the name. */
  predicate Heads(line: Bytes, verb: Verb, name: Bytes, word: Bytes) {
    line == word + [32] + name && 32 !in word && Letters(verb) <= word
  }

  /**
   The master takes a line for a header if and only if it is a word that starts with the letters of a
   verb, a space, and at least one more byte: the name is all that follows the first space.
   */
  lemma ParsedIff(line: Bytes, verb: Verb, name: Bytes)
    requires NUL !in line
    ensures ParseHeader(line) == Some((verb, name)) <==> name != [] && exists word :: Heads(line, verb, name, word)
  {
    BeforeOfSplit(line, NUL, []);
    if ParseHeader(line) == Some((verb, name)) {
      var word := Before(line, SPACE);
      assert line == word + [SPACE] + name;
      LettersAreInWord(line, word, verb);
      assert Heads(line, verb, name, word);
    }
    if name != [] && exists word :: Heads(line, verb, name, word) {
      var word :| Heads(line, verb, name, word);
      NameAfterWord(word, name);
      assert Letters(verb) <= line;
      VerbByLetters(line, verb);
    }
  }

  lemma LettersAreInWord(line: Bytes, word: Bytes, verb: Verb)
    requires word <= line && (|word| < |line| ==> line[|word|] == SPACE) && VerbOf(line) == Some(verb)
    ensures Letters(verb) <= word
  {
    assert SPACE !in Letters(verb);
    assert Letters(verb) <= line;
  }

  lemma VerbByLetters(line: Bytes, verb: Verb)
    requires Letters(verb) <= line
    ensures VerbOf(line) == Some(verb)
  {
    assert line[0] == Letters(verb)[0];
  }
}
