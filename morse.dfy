/**
 * The Morse codec (src/morse.rs): the letters of the International Morse Code
 * (section 1.1.1 of Recommendation ITU-R M.1677-1) as two static tables, and
 * the fixed-width rendering of a letter's code used by the code table screen.
 */
module Morse {
  import opened Options

  datatype Symbol = Dit | Dah

  /** `EndodedChar`: the code of one letter. */
  datatype EncodedChar = EncodedChar(symbols: seq<Symbol>)

  /** `decode_symbols`: exact match against the 26 letter codes, in the
      source's order. Each test spells out `s == [...]` element by element. */
  function Decode(s: seq<Symbol>): (r: Option<char>)
    ensures r.Some? ==> 1 <= |s| <= 4 && IsLetter(r.value)
  {
    if |s| == 2 && s[0] == Dit && s[1] == Dah then Some('a')
    else if |s| == 4 && s[0] == Dah && s[1] == Dit && s[2] == Dit && s[3] == Dit then Some('b')
    else if |s| == 4 && s[0] == Dah && s[1] == Dit && s[2] == Dah && s[3] == Dit then Some('c')
    else if |s| == 3 && s[0] == Dah && s[1] == Dit && s[2] == Dit then Some('d')
    else if |s| == 1 && s[0] == Dit then Some('e')
    else if |s| == 4 && s[0] == Dit && s[1] == Dit && s[2] == Dah && s[3] == Dit then Some('f')
    else if |s| == 3 && s[0] == Dah && s[1] == Dah && s[2] == Dit then Some('g')
    else if |s| == 4 && s[0] == Dit && s[1] == Dit && s[2] == Dit && s[3] == Dit then Some('h')
    else if |s| == 2 && s[0] == Dit && s[1] == Dit then Some('i')
    else if |s| == 4 && s[0] == Dit && s[1] == Dah && s[2] == Dah && s[3] == Dah then Some('j')
    else if |s| == 3 && s[0] == Dah && s[1] == Dit && s[2] == Dah then Some('k')
    else if |s| == 4 && s[0] == Dit && s[1] == Dah && s[2] == Dit && s[3] == Dit then Some('l')
    else if |s| == 2 && s[0] == Dah && s[1] == Dah then Some('m')
    else if |s| == 2 && s[0] == Dah && s[1] == Dit then Some('n')
    else if |s| == 3 && s[0] == Dah && s[1] == Dah && s[2] == Dah then Some('o')
    else if |s| == 4 && s[0] == Dit && s[1] == Dah && s[2] == Dah && s[3] == Dit then Some('p')
    else if |s| == 4 && s[0] == Dah && s[1] == Dah && s[2] == Dit && s[3] == Dah then Some('q')
    else if |s| == 3 && s[0] == Dit && s[1] == Dah && s[2] == Dit then Some('r')
    else if |s| == 3 && s[0] == Dit && s[1] == Dit && s[2] == Dit then Some('s')
    else if |s| == 1 && s[0] == Dah then Some('t')
    else if |s| == 3 && s[0] == Dit && s[1] == Dit && s[2] == Dah then Some('u')
    else if |s| == 4 && s[0] == Dit && s[1] == Dit && s[2] == Dit && s[3] == Dah then Some('v')
    else if |s| == 3 && s[0] == Dit && s[1] == Dah && s[2] == Dah then Some('w')
    else if |s| == 4 && s[0] == Dah && s[1] == Dit && s[2] == Dit && s[3] == Dah then Some('x')
    else if |s| == 4 && s[0] == Dah && s[1] == Dit && s[2] == Dah && s[3] == Dah then Some('y')
    else if |s| == 4 && s[0] == Dah && s[1] == Dah && s[2] == Dit && s[3] == Dit then Some('z')
    else None
  }

  /** `encode_character`: the code of a lower-case latin letter. */
  function Encode(c: char): (r: Option<EncodedChar>)
    ensures r.Some? ==> IsLetter(c) && 1 <= |r.value.symbols| <= 4
  {
    match c
    case 'a' => Some(EncodedChar([Dit, Dah]))
    case 'b' => Some(EncodedChar([Dah, Dit, Dit, Dit]))
    case 'c' => Some(EncodedChar([Dah, Dit, Dah, Dit]))
    case 'd' => Some(EncodedChar([Dah, Dit, Dit]))
    case 'e' => Some(EncodedChar([Dit]))
    case 'f' => Some(EncodedChar([Dit, Dit, Dah, Dit]))
    case 'g' => Some(EncodedChar([Dah, Dah, Dit]))
    case 'h' => Some(EncodedChar([Dit, Dit, Dit, Dit]))
    case 'i' => Some(EncodedChar([Dit, Dit]))
    case 'j' => Some(EncodedChar([Dit, Dah, Dah, Dah]))
    case 'k' => Some(EncodedChar([Dah, Dit, Dah]))
    case 'l' => Some(EncodedChar([Dit, Dah, Dit, Dit]))
    case 'm' => Some(EncodedChar([Dah, Dah]))
    case 'n' => Some(EncodedChar([Dah, Dit]))
    case 'o' => Some(EncodedChar([Dah, Dah, Dah]))
    case 'p' => Some(EncodedChar([Dit, Dah, Dah, Dit]))
    case 'q' => Some(EncodedChar([Dah, Dah, Dit, Dah]))
    case 'r' => Some(EncodedChar([Dit, Dah, Dit]))
    case 's' => Some(EncodedChar([Dit, Dit, Dit]))
    case 't' => Some(EncodedChar([Dah]))
    case 'u' => Some(EncodedChar([Dit, Dit, Dah]))
    case 'v' => Some(EncodedChar([Dit, Dit, Dit, Dah]))
    case 'w' => Some(EncodedChar([Dit, Dah, Dah]))
    case 'x' => Some(EncodedChar([Dah, Dit, Dit, Dah]))
    case 'y' => Some(EncodedChar([Dah, Dit, Dah, Dah]))
    case 'z' => Some(EncodedChar([Dah, Dah, Dit, Dit]))
    case _ => None
  }

  predicate IsLetter(c: char) {
    'a' <= c <= 'z'
  }

  /** Every letter has a code, and decoding it gives the letter back. */
  lemma EncodeTotalAndRoundTrips(c: char)
    requires IsLetter(c)
    ensures Encode(c).Some?
    ensures Decode(Encode(c).value.symbols) == Some(c)
  {
    if c == 'a' {
      assert Decode([Dit, Dah]) == Some('a');
    } else if c == 'b' {
      assert Decode([Dah, Dit, Dit, Dit]) == Some('b');
    } else if c == 'c' {
      assert Decode([Dah, Dit, Dah, Dit]) == Some('c');
    } else if c == 'd' {
      assert Decode([Dah, Dit, Dit]) == Some('d');
    } else if c == 'e' {
      assert Decode([Dit]) == Some('e');
    } else if c == 'f' {
      assert Decode([Dit, Dit, Dah, Dit]) == Some('f');
    } else if c == 'g' {
      assert Decode([Dah, Dah, Dit]) == Some('g');
    } else if c == 'h' {
      assert Decode([Dit, Dit, Dit, Dit]) == Some('h');
    } else if c == 'i' {
      assert Decode([Dit, Dit]) == Some('i');
    } else if c == 'j' {
      assert Decode([Dit, Dah, Dah, Dah]) == Some('j');
    } else if c == 'k' {
      assert Decode([Dah, Dit, Dah]) == Some('k');
    } else if c == 'l' {
      assert Decode([Dit, Dah, Dit, Dit]) == Some('l');
    } else if c == 'm' {
      assert Decode([Dah, Dah]) == Some('m');
    } else if c == 'n' {
      assert Decode([Dah, Dit]) == Some('n');
    } else if c == 'o' {
      assert Decode([Dah, Dah, Dah]) == Some('o');
    } else if c == 'p' {
      assert Decode([Dit, Dah, Dah, Dit]) == Some('p');
    } else if c == 'q' {
      assert Decode([Dah, Dah, Dit, Dah]) == Some('q');
    } else if c == 'r' {
      assert Decode([Dit, Dah, Dit]) == Some('r');
    } else if c == 's' {
      assert Decode([Dit, Dit, Dit]) == Some('s');
    } else if c == 't' {
      assert Decode([Dah]) == Some('t');
    } else if c == 'u' {
      assert Decode([Dit, Dit, Dah]) == Some('u');
    } else if c == 'v' {
      assert Decode([Dit, Dit, Dit, Dah]) == Some('v');
    } else if c == 'w' {
      assert Decode([Dit, Dah, Dah]) == Some('w');
    } else if c == 'x' {
      assert Decode([Dah, Dit, Dit, Dah]) == Some('x');
    } else if c == 'y' {
      assert Decode([Dah, Dit, Dah, Dah]) == Some('y');
    } else {
      assert c == 'z';
      assert Decode([Dah, Dah, Dit, Dit]) == Some('z');
    }
  }

  /** Nothing but a lower-case latin letter has a code. */
  lemma EncodeOnlyLetters(c: char)
    ensures Encode(c).Some? <==> IsLetter(c)
  {
  }

  /** Different letters have different codes. */
  lemma EncodeInjective(c1: char, c2: char)
    requires Encode(c1).Some? && Encode(c1) == Encode(c2)
    ensures c1 == c2
  {
    EncodeTotalAndRoundTrips(c1);
    EncodeTotalAndRoundTrips(c2);
  }

  lemma DecodeInvertsLength1(s: seq<Symbol>, c: char)
    requires |s| == 1 && Decode(s) == Some(c)
    ensures IsLetter(c) && Encode(c) == Some(EncodedChar(s))
  {
    if s[0] == Dit {
      assert s == [Dit];
    } else {
      assert s == [Dah];
    }
  }

  lemma DecodeInvertsLength2(s: seq<Symbol>, c: char)
    requires |s| == 2 && Decode(s) == Some(c)
    ensures IsLetter(c) && Encode(c) == Some(EncodedChar(s))
  {
    if s[0] == Dit {
      if s[1] == Dit {
        assert s == [Dit, Dit];
      } else {
        assert s == [Dit, Dah];
      }
    } else {
      if s[1] == Dit {
        assert s == [Dah, Dit];
      } else {
        assert s == [Dah, Dah];
      }
    }
  }

  lemma DecodeInvertsLength3(s: seq<Symbol>, c: char)
    requires |s| == 3 && Decode(s) == Some(c)
    ensures IsLetter(c) && Encode(c) == Some(EncodedChar(s))
  {
    if s[0] == Dit {
      if s[1] == Dit {
        if s[2] == Dit {
          assert s == [Dit, Dit, Dit];
        } else {
          assert s == [Dit, Dit, Dah];
        }
      } else {
        if s[2] == Dit {
          assert s == [Dit, Dah, Dit];
        } else {
          assert s == [Dit, Dah, Dah];
        }
      }
    } else {
      if s[1] == Dit {
        if s[2] == Dit {
          assert s == [Dah, Dit, Dit];
        } else {
          assert s == [Dah, Dit, Dah];
        }
      } else {
        if s[2] == Dit {
          assert s == [Dah, Dah, Dit];
        } else {
          assert s == [Dah, Dah, Dah];
        }
      }
    }
  }

  lemma DecodeInvertsLength4(s: seq<Symbol>, c: char)
    requires |s| == 4 && Decode(s) == Some(c)
    ensures IsLetter(c) && Encode(c) == Some(EncodedChar(s))
  {
    if s[0] == Dit {
      if s[1] == Dit {
        if s[2] == Dit {
          if s[3] == Dit {
            assert s == [Dit, Dit, Dit, Dit];
          } else {
            assert s == [Dit, Dit, Dit, Dah];
          }
        } else {
          if s[3] == Dit {
            assert s == [Dit, Dit, Dah, Dit];
          } else {
            assert false;
          }
        }
      } else {
        if s[2] == Dit {
          if s[3] == Dit {
            assert s == [Dit, Dah, Dit, Dit];
          } else {
            assert false;
          }
        } else {
          if s[3] == Dit {
            assert s == [Dit, Dah, Dah, Dit];
          } else {
            assert s == [Dit, Dah, Dah, Dah];
          }
        }
      }
    } else {
      if s[1] == Dit {
        if s[2] == Dit {
          if s[3] == Dit {
            assert s == [Dah, Dit, Dit, Dit];
          } else {
            assert s == [Dah, Dit, Dit, Dah];
          }
        } else {
          if s[3] == Dit {
            assert s == [Dah, Dit, Dah, Dit];
          } else {
            assert s == [Dah, Dit, Dah, Dah];
          }
        }
      } else {
        if s[2] == Dit {
          if s[3] == Dit {
            assert s == [Dah, Dah, Dit, Dit];
          } else {
            assert s == [Dah, Dah, Dit, Dah];
          }
        } else {
          assert false;
        }
      }
    }
  }

  /** Decoding only ever yields the letter whose code was given. */
  lemma DecodeInvertsEncode(s: seq<Symbol>, c: char)
    requires Decode(s) == Some(c)
    ensures IsLetter(c) && Encode(c) == Some(EncodedChar(s))
  {
    if |s| == 1 {
      DecodeInvertsLength1(s, c);
    } else if |s| == 2 {
      DecodeInvertsLength2(s, c);
    } else if |s| == 3 {
      DecodeInvertsLength3(s, c);
    } else if |s| == 4 {
      DecodeInvertsLength4(s, c);
    } else {
      assert false;
    }
  }

  /** No code is empty or longer than four symbols. */
  lemma DecodeRejectsLength(s: seq<Symbol>)
    requires |s| == 0 || |s| > 4
    ensures Decode(s) == None
  {
  }

  /** All 14 sequences of one to three symbols are letter codes. */
  lemma DecodeShortTotal(s: seq<Symbol>)
    requires 1 <= |s| <= 3
    ensures Decode(s).Some?
  {
    if |s| == 1 {
      if s[0] == Dit {
        assert s == [Dit];
      } else {
        assert s == [Dah];
      }
    } else if |s| == 2 {
      if s[0] == Dit && s[1] == Dit {
        assert s == [Dit, Dit];
      } else if s[0] == Dit && s[1] == Dah {
        assert s == [Dit, Dah];
      } else if s[0] == Dah && s[1] == Dit {
        assert s == [Dah, Dit];
      } else {
        assert s == [Dah, Dah];
      }
    } else {
      if s[0] == Dit && s[1] == Dit && s[2] == Dit {
        assert s == [Dit, Dit, Dit];
      } else if s[0] == Dit && s[1] == Dit && s[2] == Dah {
        assert s == [Dit, Dit, Dah];
      } else if s[0] == Dit && s[1] == Dah && s[2] == Dit {
        assert s == [Dit, Dah, Dit];
      } else if s[0] == Dit && s[1] == Dah && s[2] == Dah {
        assert s == [Dit, Dah, Dah];
      } else if s[0] == Dah && s[1] == Dit && s[2] == Dit {
        assert s == [Dah, Dit, Dit];
      } else if s[0] == Dah && s[1] == Dit && s[2] == Dah {
        assert s == [Dah, Dit, Dah];
      } else if s[0] == Dah && s[1] == Dah && s[2] == Dit {
        assert s == [Dah, Dah, Dit];
      } else {
        assert s == [Dah, Dah, Dah];
      }
    }
  }

  /** Exactly four of the 16 four-symbol sequences are not letter codes. */
  lemma DecodeLengthFour(s: seq<Symbol>)
    requires |s| == 4
    ensures Decode(s) == None <==>
      s == [Dit, Dit, Dah, Dah] || s == [Dit, Dah, Dit, Dah] ||
      s == [Dah, Dah, Dah, Dit] || s == [Dah, Dah, Dah, Dah]
  {
    if s[0] == Dit && s[1] == Dit && s[2] == Dit && s[3] == Dit {
      assert s == [Dit, Dit, Dit, Dit];
    } else if s[0] == Dit && s[1] == Dit && s[2] == Dit && s[3] == Dah {
      assert s == [Dit, Dit, Dit, Dah];
    } else if s[0] == Dit && s[1] == Dit && s[2] == Dah && s[3] == Dit {
      assert s == [Dit, Dit, Dah, Dit];
    } else if s[0] == Dit && s[1] == Dit && s[2] == Dah && s[3] == Dah {
      assert s == [Dit, Dit, Dah, Dah];
    } else if s[0] == Dit && s[1] == Dah && s[2] == Dit && s[3] == Dit {
      assert s == [Dit, Dah, Dit, Dit];
    } else if s[0] == Dit && s[1] == Dah && s[2] == Dit && s[3] == Dah {
      assert s == [Dit, Dah, Dit, Dah];
    } else if s[0] == Dit && s[1] == Dah && s[2] == Dah && s[3] == Dit {
      assert s == [Dit, Dah, Dah, Dit];
    } else if s[0] == Dit && s[1] == Dah && s[2] == Dah && s[3] == Dah {
      assert s == [Dit, Dah, Dah, Dah];
    } else if s[0] == Dah && s[1] == Dit && s[2] == Dit && s[3] == Dit {
      assert s == [Dah, Dit, Dit, Dit];
    } else if s[0] == Dah && s[1] == Dit && s[2] == Dit && s[3] == Dah {
      assert s == [Dah, Dit, Dit, Dah];
    } else if s[0] == Dah && s[1] == Dit && s[2] == Dah && s[3] == Dit {
      assert s == [Dah, Dit, Dah, Dit];
    } else if s[0] == Dah && s[1] == Dit && s[2] == Dah && s[3] == Dah {
      assert s == [Dah, Dit, Dah, Dah];
    } else if s[0] == Dah && s[1] == Dah && s[2] == Dit && s[3] == Dit {
      assert s == [Dah, Dah, Dit, Dit];
    } else if s[0] == Dah && s[1] == Dah && s[2] == Dit && s[3] == Dah {
      assert s == [Dah, Dah, Dit, Dah];
    } else if s[0] == Dah && s[1] == Dah && s[2] == Dah && s[3] == Dit {
      assert s == [Dah, Dah, Dah, Dit];
    } else {
      assert s == [Dah, Dah, Dah, Dah];
    }
  }

  /** The glyph `Display` writes for one symbol: a bullet for a Dit and an
      em dash for a Dah, never the separating space. */
  function Glyph(sym: Symbol): (g: char)
    ensures g != ' '
    ensures g == '\U{2022}' <==> sym == Dit
  {
    match sym
    case Dit => '\U{2022}'
    case Dah => '\U{2014}'
  }

  /** `Display for EndodedChar`: each symbol's glyph and a space, then
      `5 - len` double spaces, so every letter code takes ten characters. */
  method Display(e: EncodedChar) returns (out: string)
    requires |e.symbols| <= 5
    ensures |out| == 10
    ensures forall i :: 0 <= i < |e.symbols| ==>
      out[2 * i] == Glyph(e.symbols[i]) && out[2 * i + 1] == ' '
    ensures forall j :: 2 * |e.symbols| <= j < 10 ==> out[j] == ' '
  {
    out := "";
    for i := 0 to |e.symbols|
      invariant |out| == 2 * i
      invariant forall k :: 0 <= k < i ==>
        out[2 * k] == Glyph(e.symbols[k]) && out[2 * k + 1] == ' '
    {
      out := out + [Glyph(e.symbols[i]), ' '];
    }
    for i := 0 to 5 - |e.symbols|
      invariant |out| == 2 * |e.symbols| + 2 * i
      invariant forall k :: 0 <= k < |e.symbols| ==>
        out[2 * k] == Glyph(e.symbols[k]) && out[2 * k + 1] == ' '
      invariant forall j :: 2 * |e.symbols| <= j < |out| ==> out[j] == ' '
    {
      out := out + "  ";
    }
  }
}
