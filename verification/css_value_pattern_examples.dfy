/** The ten values listed beside the pattern in CssCompiler.php (lines
    240-252), each proved to match or not to match as the list says, and the
    consequences of the pattern's one-sided anchoring. */
module CssValuePatternExamples {
  import opened Wrappers
  import opened PhpStrings
  import opened CssValuePattern

  // Listed as matching

  lemma HexColorMatches()
    ensures Matches("#ffaaff")
  {
    var s := "#ffaaff";
    assert forall k | 1 <= k < 7 :: IsHexDigit(s[k]);
  }

  lemma EmLengthMatches()
    ensures Matches("33em")
  {
    LengthSuffixIff("33em");
    assert UnitAtEnd("33em", 2);
  }

  lemma FractionLengthMatches()
    ensures Matches("0.5px")
  {
    LengthSuffixIff("0.5px");
    assert UnitAtEnd("0.5px", 2);
  }

  const Rgba: string := "rgba(125,200,100,0.3)"

  lemma RgbaRed()
    ensures OctetComma(Rgba, 5) == Some(9)
  {
    assert Rgba[5..8] == "125";
    OctetCommaAt(Rgba, 5, 8);
  }

  lemma RgbaGreen()
    ensures OctetComma(Rgba, 9) == Some(13)
  {
    assert Rgba[9..12] == "200";
    OctetCommaAt(Rgba, 9, 12);
  }

  lemma RgbaBlue()
    ensures OctetComma(Rgba, 13) == Some(17)
  {
    assert Rgba[13..16] == "100";
    OctetCommaAt(Rgba, 13, 16);
  }

  lemma RgbaAlpha()
    ensures AlphaClose(Rgba, 17)
  {
    assert Rgba[17] == '0' && IsDotChar(Rgba[18]) && IsDigit(Rgba[19]);
    SkipDigitsRun(Rgba, 19, 20);
    assert !IsSpace(Rgba[20]);
  }

  lemma RgbaHead()
    ensures |Rgba| >= 5 && LowerChar(Rgba[0]) == 'r' && LowerChar(Rgba[1]) == 'g'
    ensures LowerChar(Rgba[2]) == 'b' && LowerChar(Rgba[3]) == 'a' && Rgba[4] == '('
    ensures SkipSpaces(Rgba, 5) == 5
  {
    assert !IsSpace(Rgba[5]);
  }

  lemma RgbaMatches()
    ensures Matches(Rgba)
  {
    RgbaHead();
    RgbaRed();
    RgbaGreen();
    RgbaBlue();
    RgbaAlpha();
    RgbaFromParts(Rgba, 5, 9, 13, 17);
  }

  // Listed as not matching

  lemma FontFamilyDoesNotMatch()
    ensures !Matches("family=Aguafina+Script")
  {
    var s := "family=Aguafina+Script";
    assert LowerChar(s[0]) != 'r';
    LengthSuffixIff(s);
    NoDigitBeforeUnitChars(s, 6);
  }

  lemma BadHexDigitsDoNotMatch()
    ensures !Matches("#zzzzzz")
  {
    var s := "#zzzzzz";
    assert !IsHexDigit(s[1]);
    assert LowerChar(s[0]) != 'r';
    NoUnitLetterAtEnd(s);
  }

  lemma ShortHexDoesNotMatch()
    ensures !Matches("#fff")
  {
    var s := "#fff";
    assert LowerChar(s[0]) != 'r';
    NoUnitLetterAtEnd(s);
  }

  lemma SpacedUnitDoesNotMatch()
    ensures !Matches("50 rem")
  {
    var s := "50 rem";
    assert s[0] != '#' && LowerChar(s[0]) != 'r';
    LengthSuffixIff(s);
    NoDigitBeforeUnitChars(s, 3);
  }

  lemma ByteOverflowDoesNotMatch()
    ensures !Matches("rgba(323,323,2323)")
  {
    var s := "rgba(323,323,2323)";
    assert SkipSpaces(s, 5) == 5 by { assert !IsSpace(s[5]); }
    assert s[5..8] == "323";
    assert !IsDigit(s[8]);
    OctetCommaFails(s, 5, 8);
    NoUnitLetterAtEnd(s);
  }

  lemma RgbDoesNotMatch()
    ensures !Matches("rgb(120,12,12)")
  {
    var s := "rgb(120,12,12)";
    assert LowerChar(s[3]) != 'a';
    NoUnitLetterAtEnd(s);
  }

  // Consequences of the anchoring and of the unescaped dot

  const LooseAlpha: string := "rgba(0,0,0,0x5)"

  lemma LooseAlphaHead()
    ensures |LooseAlpha| >= 5 && LowerChar(LooseAlpha[0]) == 'r' && LowerChar(LooseAlpha[1]) == 'g'
    ensures LowerChar(LooseAlpha[2]) == 'b' && LowerChar(LooseAlpha[3]) == 'a' && LooseAlpha[4] == '('
    ensures SkipSpaces(LooseAlpha, 5) == 5
  {
    assert !IsSpace(LooseAlpha[5]);
  }

  lemma LooseAlphaChannel(i: nat)
    requires i == 5 || i == 7 || i == 9
    ensures OctetComma(LooseAlpha, i) == Some(i + 2)
  {
    assert LooseAlpha[i..i + 1] == "0";
    OctetCommaAt(LooseAlpha, i, i + 1);
  }

  lemma LooseAlphaClose()
    ensures AlphaClose(LooseAlpha, 11)
  {
    assert LooseAlpha[11] == '0' && IsDotChar(LooseAlpha[12]) && IsDigit(LooseAlpha[13]);
    SkipDigitsRun(LooseAlpha, 13, 14);
    assert !IsSpace(LooseAlpha[14]);
  }

  /** The dot of the alpha is not escaped, so "0x5" is accepted as an alpha. */
  lemma LooseAlphaMatches()
    ensures Matches(LooseAlpha)
  {
    LooseAlphaHead();
    LooseAlphaChannel(5);
    LooseAlphaChannel(7);
    LooseAlphaChannel(9);
    LooseAlphaClose();
    RgbaFromParts(LooseAlpha, 5, 7, 9, 11);
  }

  /** A non-ASCII character in place of the dot is several bytes, of which
      the dot takes only the first; the byte after it is no digit, so the
      value is not a colour. */
  const WideAlpha: string := "rgba(0,0,0,0\U{00E9}5)"

  lemma WideAlphaHead()
    ensures |WideAlpha| >= 5 && LowerChar(WideAlpha[0]) == 'r' && LowerChar(WideAlpha[1]) == 'g'
    ensures LowerChar(WideAlpha[2]) == 'b' && LowerChar(WideAlpha[3]) == 'a' && WideAlpha[4] == '('
    ensures SkipSpaces(WideAlpha, 5) == 5
  {
    assert !IsSpace(WideAlpha[5]);
  }

  lemma WideAlphaChannel(i: nat)
    requires i == 5 || i == 7 || i == 9
    ensures OctetComma(WideAlpha, i) == Some(i + 2)
  {
    assert WideAlpha[i..i + 1] == "0";
    OctetCommaAt(WideAlpha, i, i + 1);
  }

  lemma WideAlphaNoClose()
    ensures !AlphaClose(WideAlpha, 11)
  {
    var s := WideAlpha;
    assert !IsDotChar(s[12]) && !IsSpace(s[12]) && s[12] != ')';
  }

  lemma WideAlphaDoesNotMatch()
    ensures !Matches(WideAlpha)
  {
    WideAlphaHead();
    WideAlphaChannel(5);
    WideAlphaChannel(7);
    WideAlphaChannel(9);
    WideAlphaNoClose();
    assert WideAlpha[0] != '#';
    NoUnitLetterAtEnd(WideAlpha);
  }

  /** Only the start of a hex colour is checked. */
  lemma HexColorWithTailMatches()
    ensures Matches("#ffaaff; color: red")
  {
    HexColorMatches();
    HexColorAnyTail("#ffaaff", "; color: red");
    assert "#ffaaff" + "; color: red" == "#ffaaff; color: red";
  }

  /** Only the end of a length is checked. */
  lemma LengthWithHeadMatches()
    ensures Matches("calc(100% - 33em")
  {
    LengthSuffixIff("calc(100% - 33em");
    assert UnitAtEnd("calc(100% - 33em", 2);
  }
}
