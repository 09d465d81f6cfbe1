/** The two fixed character sets of the game, the mode that selects one of
    them, the lower-casing used to judge an answer, the text the on-screen keys
    send, and the mode label of the heads-up display. */
module Vocabulary {

  /** The game's `mode` field, which only ever holds 'letters' or 'numbers'. */
  datatype Mode = Letters | Numbers

  const LetterChars: string := "ABCDEFGHIJKLMNOPQRSTUVWXYZ"
  const DigitChars: string := "0123456789"

  /** `s.split('')`: one single-character string per character of `s`. */
  function Split(s: string): seq<string>
  {
    seq(|s|, i requires 0 <= i < |s| => [s[i]])
  }

  /** The `letters` field: "A" .. "Z". */
  const LetterKeys: seq<string> := Split(LetterChars)

  /** The `numbers` field: "0" .. "9". */
  const DigitKeys: seq<string> := Split(DigitChars)

  predicate IsUpper(c: char) { 'A' <= c <= 'Z' }

  predicate IsDigit(c: char) { '0' <= c <= '9' }

  /** The vocabulary a mode draws its challenges from. */
  function Active(m: Mode): seq<string>
  {
    if m == Letters then LetterKeys else DigitKeys
  }

  /** The Switch button's `mode === 'letters' ? 'numbers' : 'letters'`. */
  function Toggle(m: Mode): (r: Mode)
    ensures r != m
  {
    if m == Letters then Numbers else Letters
  }

  /** The mode label of the heads-up display. */
  function ModeLabel(m: Mode): (r: string)
    ensures r == "Letters" <==> m == Letters
    ensures r == "Cijfers" <==> m == Numbers
  {
    assert "Cijfers"[0] != "Letters"[0];
    match m
    case Letters => "Letters"
    case Numbers => "Cijfers"
  }

  /** Lower-casing of one character. Only the ASCII capitals are mapped:
      every string this is applied to is drawn from the vocabularies above. */
  function LowerChar(c: char): char
  {
    if IsUpper(c) then (c as int + 32) as char else c
  }

  /** `s.toLowerCase()` on the strings the game lower-cases. */
  function ToLower(s: string): (r: string)
    ensures |r| == |s|
    ensures forall i :: 0 <= i < |r| ==> !IsUpper(r[i])
    ensures forall i :: 0 <= i < |s| && !IsUpper(s[i]) ==> r[i] == s[i]
    ensures forall i :: 0 <= i < |s| && IsUpper(s[i]) ==> r[i] as int == s[i] as int + 32
  {
    seq(|s|, i requires 0 <= i < |s| => LowerChar(s[i]))
  }

  /** The answer an on-screen key submits: a letter key sends its letter in
      lower case, a number key sends its digit. */
  function KeyInput(key: string): (r: string)
    ensures key in LetterKeys + DigitKeys ==> r == ToLower(key)
    ensures forall i :: 0 <= i < |r| && key in LetterKeys + DigitKeys ==> !IsUpper(r[i])
  {
    if key in LetterKeys then ToLower(key)
    else if key in DigitKeys then InActive(Numbers, key); DigitIsLower(key); key
    else key
  }

  /** Every entry of a vocabulary is a single character of the expected
      class: a capital letter in letters mode, a digit in numbers mode. */
  lemma ActiveEntry(m: Mode, k: nat)
    requires k < |Active(m)|
    ensures |Active(m)| == (if m == Letters then 26 else 10)
    ensures |Active(m)[k]| == 1
    ensures m == Letters ==> IsUpper(Active(m)[k][0])
    ensures m == Numbers ==> IsDigit(Active(m)[k][0])
  {
    if m == Letters {
      assert LetterKeys[k] == [LetterChars[k]];
      assert forall i :: 0 <= i < |LetterChars| ==> IsUpper(LetterChars[i]);
    } else {
      assert DigitKeys[k] == [DigitChars[k]];
      assert forall i :: 0 <= i < |DigitChars| ==> IsDigit(DigitChars[i]);
    }
  }

  /** The same, phrased for membership. */
  lemma InActive(m: Mode, s: string)
    requires s in Active(m)
    ensures |s| == 1
    ensures m == Letters ==> IsUpper(s[0])
    ensures m == Numbers ==> IsDigit(s[0])
  {
    var k :| 0 <= k < |Active(m)| && Active(m)[k] == s;
    ActiveEntry(m, k);
  }

  /** Lower-casing never leaves a capital in place: an upper-case letter is
      not its own lower-case form. */
  lemma UpperIsNotLower(s: string)
    requires |s| == 1 && IsUpper(s[0])
    ensures ToLower(s) != s
    ensures |ToLower(s)| == 1 && 'a' <= ToLower(s)[0] <= 'z'
  {
    assert ToLower(s)[0] == LowerChar(s[0]);
  }

  /** Digits are left unchanged by lower-casing. */
  lemma DigitIsLower(s: string)
    requires |s| == 1 && IsDigit(s[0])
    ensures ToLower(s) == s
  {
    assert ToLower(s)[0] == LowerChar(s[0]);
  }

  /** The keys of the on-screen keyboard submit pairwise different answers,
      and each letter key's answer is the lower-case form of its letter. */
  lemma KeyInputInjective(a: string, b: string)
    requires a in LetterKeys + DigitKeys && b in LetterKeys + DigitKeys
    ensures KeyInput(a) == KeyInput(b) <==> a == b
    ensures KeyInput(a) == ToLower(a)
  {
    assert a in Active(Letters) || a in Active(Numbers);
    assert b in Active(Letters) || b in Active(Numbers);
    ForKey(a);
    ForKey(b);
    if KeyInput(a) == KeyInput(b) {
      assert KeyInput(a)[0] == KeyInput(b)[0];
      assert a[0] == b[0];
      assert a == [a[0]] && b == [b[0]];
    }
  }

  /** Helper for KeyInputInjective: what one key submits, character-wise. */
  lemma ForKey(a: string)
    requires a in LetterKeys || a in DigitKeys
    ensures |a| == 1 && |KeyInput(a)| == 1
    ensures KeyInput(a) == ToLower(a)
    ensures a in LetterKeys ==> IsUpper(a[0]) && KeyInput(a)[0] as int == a[0] as int + 32
    ensures a !in LetterKeys ==> IsDigit(a[0]) && KeyInput(a)[0] == a[0]
  {
    if a in LetterKeys {
      InActive(Letters, a);
      assert ToLower(a)[0] == LowerChar(a[0]);
    } else {
      InActive(Numbers, a);
      DigitIsLower(a);
    }
  }

  /** The Switch button is an involution and the label tells the modes apart. */
  lemma ToggleAndLabel(m: Mode, n: Mode)
    ensures Toggle(Toggle(m)) == m
    ensures ModeLabel(m) == ModeLabel(n) <==> m == n
    ensures ModeLabel(Letters) == "Letters" && ModeLabel(Numbers) == "Cijfers"
  {
    if m != n {
      assert ModeLabel(m)[0] != ModeLabel(n)[0];
    }
  }
}
