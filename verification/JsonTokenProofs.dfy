/** White space, numbers and strings: what the reader takes of the texts of the grammar. */
module JsonTokenProofs {
  import opened Options
  import opened JsonGrammar
  import opened JsonReader
  import Wtf8

  // ----- White space

  lemma {:induction false} SkipSpaceSplit(s: string) returns (lead: string)
    ensures AllSpace(lead) && s == lead + SkipSpace(s)
  {
    if s != "" && IsSpace(s[0]) {
      var rest := SkipSpaceSplit(s[1..]);
      lead := [s[0]] + rest;
      Wtf8.Regroup([s[0]], rest, SkipSpace(s));
      assert s == [s[0]] + s[1..];
    } else {
      lead := "";
    }
  }

  lemma {:induction false} SkipSpaceOver(lead: string, rest: string)
    requires AllSpace(lead)
    requires rest != "" ==> !IsSpace(rest[0])
    ensures SkipSpace(lead + rest) == rest
  {
    if lead == "" {
      assert lead + rest == rest;
    } else {
      assert (lead + rest)[1..] == lead[1..] + rest;
      assert IsSpace(lead[0]);
      SkipSpaceOver(lead[1..], rest);
    }
  }

  // ----- Numbers

  lemma {:induction false} DigitRunOver(digits: string, rest: string)
    requires AllDigits(digits)
    requires rest != "" ==> !IsDigit(rest[0])
    ensures DigitRun(digits + rest) == |digits|
  {
    if digits == "" {
      assert digits + rest == rest;
    } else {
      assert (digits + rest)[1..] == digits[1..] + rest;
      assert IsDigit(digits[0]);
      DigitRunOver(digits[1..], rest);
    }
  }

  lemma ScanIntegerOver(before: string, integer: string, rest: string)
    requires IsInteger(integer)
    requires rest != "" ==> !IsDigit(rest[0])
    ensures ScanInteger(before + integer + rest, |before|) == Some(|before + integer|)
  {
    var s := before + integer + rest;
    assert s[|before|..] == integer + rest;
    assert s[|before|] == integer[0];
    if integer != "0" {
      DigitRunOver(integer, rest);
    }
  }

  lemma ScanFractionOver(before: string, fraction: string, rest: string)
    requires fraction == "" || IsFraction(fraction)
    requires rest != "" ==> !IsDigit(rest[0]) && rest[0] != '.'
    ensures ScanFraction(before + fraction + rest, |before|) == Some(|before + fraction|)
  {
    var s := before + fraction + rest;
    if fraction == "" {
      assert s == before + rest;
    } else {
      assert s[|before|] == fraction[0];
      assert s[|before| + 1..] == fraction[1..] + rest;
      DigitRunOver(fraction[1..], rest);
    }
  }

  /** Where the digits of an exponent begin. */
  lemma ExponentDigits(exponent: string) returns (from: nat)
    requires IsExponent(exponent)
    ensures from == if exponent[1] == '+' || exponent[1] == '-' then 2 else 1
    ensures from < |exponent| && AllDigits(exponent[from..])
    ensures exponent[0] == 'e' || exponent[0] == 'E'
  {
    from := if exponent[1] == '+' || exponent[1] == '-' then 2 else 1;
    assert exponent[1] in exponent[1..];
    assert !IsDigit('+') && !IsDigit('-');
  }

  lemma DropBefore(before: string, exponent: string, rest: string, from: nat)
    requires from <= |exponent|
    ensures (before + exponent + rest)[|before| + from..] == exponent[from..] + rest
    ensures from < |exponent| ==> (before + exponent + rest)[|before| + from] == exponent[from]
  {
  }

  lemma ScanExponentOver(before: string, exponent: string, rest: string)
    requires exponent == "" || IsExponent(exponent)
    requires rest != "" ==> !IsDigit(rest[0]) && rest[0] !in "eE"
    ensures ScanExponent(before + exponent + rest, |before|) == Some(|before + exponent|)
  {
    if exponent == "" {
      assert before + exponent + rest == before + rest;
    } else {
      var from := ExponentDigits(exponent);
      DropBefore(before, exponent, rest, 0);
      DropBefore(before, exponent, rest, 1);
      DropBefore(before, exponent, rest, from);
      DigitRunOver(exponent[from..], rest);
    }
  }

  predicate Ends(rest: string) { rest != "" ==> !ContinuesNumber(rest[0]) }

  lemma ScanIntegerPart(minus: string, integer: string, rest: string)
    requires (minus == "" || minus == "-") && IsInteger(integer)
    requires rest != "" ==> !IsDigit(rest[0])
    ensures StartsWith(minus + integer + rest, '-') <==> minus == "-"
    ensures ScanInteger(minus + integer + rest, |minus|) == Some(|minus + integer|)
  {
    ScanIntegerOver(minus, integer, rest);
    assert minus == "" ==> (minus + integer + rest)[0] == integer[0];
  }

  lemma FirstOfExponent(exponent: string, rest: string)
    requires exponent == "" || IsExponent(exponent)
    requires Ends(rest)
    ensures exponent + rest != "" ==> !IsDigit((exponent + rest)[0]) && (exponent + rest)[0] != '.'
  {
    assert exponent == "" ==> exponent + rest == rest;
    assert exponent != "" ==> (exponent + rest)[0] == exponent[0];
  }

  lemma FirstOfFraction(fraction: string, rest: string)
    requires fraction == "" || IsFraction(fraction)
    requires rest != "" ==> !IsDigit(rest[0])
    ensures fraction + rest != "" ==> !IsDigit((fraction + rest)[0])
  {
    assert fraction == "" ==> fraction + rest == rest;
    assert fraction != "" ==> (fraction + rest)[0] == fraction[0];
  }

  lemma ScanRestComplete(before: string, fraction: string, exponent: string, rest: string)
    requires before != ""
    requires fraction == "" || IsFraction(fraction)
    requires exponent == "" || IsExponent(exponent)
    requires Ends(rest)
    ensures ScanFrom(before + (fraction + (exponent + rest)), Some(|before|))
         == Some(|before + fraction + exponent|)
  {
    FirstOfExponent(exponent, rest);
    Wtf8.Regroup(before, fraction, exponent + rest);
    ScanFractionOver(before, fraction, exponent + rest);
    Wtf8.Regroup(before + fraction, exponent, rest);
    ScanExponentOver(before + fraction, exponent, rest);
  }

  lemma ScanPartsComplete(minus: string, integer: string, fraction: string, exponent: string, rest: string)
    requires NumberParts(minus, integer, fraction, exponent)
    requires Ends(rest)
    ensures ScanNumber(minus + integer + fraction + exponent + rest)
            == Some(|minus + integer + fraction + exponent|)
  {
    FirstOfExponent(exponent, rest);
    FirstOfFraction(fraction, exponent + rest);
    Wtf8.Regroup(minus + integer + fraction, exponent, rest);
    Wtf8.Regroup(minus + integer, fraction, exponent + rest);
    ScanIntegerPart(minus, integer, fraction + (exponent + rest));
    ScanRestComplete(minus + integer, fraction, exponent, rest);
  }

  /** A number followed by nothing that continues it is read whole. */
  lemma ScanNumberComplete(lexeme: string, rest: string)
    requires IsNumber(lexeme)
    requires Ends(rest)
    ensures ScanNumber(lexeme + rest) == Some(|lexeme|)
  {
    var minus, integer, fraction, exponent :|
      NumberParts(minus, integer, fraction, exponent) && lexeme == minus + integer + fraction + exponent;
    ScanPartsComplete(minus, integer, fraction, exponent, rest);
  }

  lemma ScanIntegerSound(s: string, from: nat)
    requires from <= |s| && ScanInteger(s, from).Some?
    ensures IsInteger(s[from..ScanInteger(s, from).value])
  {
    var end := ScanInteger(s, from).value;
    if s[from] == '0' {
      assert s[from..end] == "0";
    } else {
      assert s[from..end] == s[from..][..end - from];
    }
  }

  lemma ScanFractionSound(s: string, from: nat)
    requires from <= |s| && ScanFraction(s, from).Some?
    ensures var fraction := s[from..ScanFraction(s, from).value]; fraction == "" || IsFraction(fraction)
  {
    var end := ScanFraction(s, from).value;
    if end != from {
      assert s[from..end][1..] == s[from + 1..][..end - from - 1];
    }
  }

  lemma ScanExponentSound(s: string, from: nat)
    requires from <= |s| && ScanExponent(s, from).Some?
    ensures var exponent := s[from..ScanExponent(s, from).value]; exponent == "" || IsExponent(exponent)
  {
    var end := ScanExponent(s, from).value;
    if end != from {
      var sign := if from + 1 < |s| && (s[from + 1] == '+' || s[from + 1] == '-') then 1 else 0;
      assert s[from..end][1 + sign..] == s[from + 1 + sign..][..end - from - 1 - sign];
    }
  }

  lemma PartsOfNumber(s: string, start: nat, a: nat, b: nat, c: nat)
    requires start <= a <= b <= c <= |s|
    requires NumberParts(s[..start], s[start..a], s[a..b], s[b..c])
    ensures IsNumber(s[..c])
  {
    Slices(s, start, a);
    Slices(s, a, b);
    Slices(s, b, c);
  }

  lemma Slices(s: string, a: nat, b: nat)
    requires a <= b <= |s|
    ensures s[..a] + s[a..b] == s[..b]
  {
  }

  /** Every number the parser takes obeys the grammar of section 6 of RFC 8259. */
  lemma ScanNumberSound(s: string)
    requires ScanNumber(s).Some?
    ensures IsNumber(s[..ScanNumber(s).value])
  {
    var start := SignLength(s);
    var a := ScanInteger(s, start).value;
    var b := ScanFraction(s, a).value;
    var c := ScanExponent(s, b).value;
    ScanIntegerSound(s, start);
    ScanFractionSound(s, a);
    ScanExponentSound(s, b);
    PartsOfNumber(s, start, a, b, c);
  }

  // ----- Strings

  /** Where no pair is cut, the surrogates of a string are paired if and only if those of both parts are. */
  lemma PairedJoined(first: seq<Piece>, others: seq<Piece>)
    requires Paired(first)
    ensures Paired(first + others) <==> Paired(others)
  {
    var all, n := first + others, |first|;
    hide IsHighPiece, IsLowPiece;
    if Paired(all) {
      assert n > 0 ==> PairedAt(first, n - 1);
      forall i | 0 <= i < |others| ensures PairedAt(others, i) {
        assert PairedAt(all, n + i);
      }
    }
    if Paired(others) {
      forall i | 0 <= i < |all| ensures PairedAt(all, i) {
        if i < n {
          assert PairedAt(first, i);
        } else {
          assert PairedAt(others, i - n);
        }
      }
    }
  }

  lemma PiecesTextCons(piece: Piece, pieces: seq<Piece>)
    ensures PiecesText([piece] + pieces) == PieceText(piece) + PiecesText(pieces)
    ensures !IsHighPiece(piece) ==> PiecesValue([piece] + pieces) == PieceValue(piece) + PiecesValue(pieces)
    ensures !IsHighPiece(piece) && !IsLowPiece(piece) ==> (Paired([piece] + pieces) <==> Paired(pieces))
  {
    assert ([piece] + pieces)[1..] == pieces;
    if !IsHighPiece(piece) && !IsLowPiece(piece) {
      assert Paired([piece]);
      PairedJoined([piece], pieces);
    }
  }

  /** Two surrogates that form a pair, at the front of a string. */
  lemma PairCons(high: Piece, low: Piece, pieces: seq<Piece>)
    requires IsHighPiece(high) && IsLowPiece(low)
    ensures PiecesText([high, low] + pieces) == (PieceText(high) + PieceText(low)) + PiecesText(pieces)
    ensures PiecesValue([high, low] + pieces)
         == Wtf8.EncodeScalar(Wtf8.Combine(HexValue(high.hex), HexValue(low.hex))) + PiecesValue(pieces)
    ensures Paired([high, low] + pieces) <==> Paired(pieces)
  {
    var all := [high, low] + pieces;
    assert all[2..] == pieces && all[1..] == [low] + pieces && ([low] + pieces)[1..] == pieces;
    Wtf8.Regroup(PieceText(high), PieceText(low), PiecesText(pieces));
    assert Paired([high, low]);
    PairedJoined([high, low], pieces);
    hide Paired, Wtf8.EncodeScalar, Wtf8.Combine, HexValue, PieceText;
  }

  /** What the reader does with an escape depends on the escape itself and, for the first half of a pair,
      on what comes next. */
  lemma ReadEscapeOver(piece: Piece, after: string)
    requires IsPiece(piece) && !piece.Raw?
    ensures PieceText(piece)[0] == '\\'
    ensures var read := ReadEscape(PieceText(piece)[1..] + after);
      if IsLowPiece(piece) then read == None
      else if !IsHighPiece(piece) then read == Some((PieceValue(piece), after))
      else if |after| < 6 || after[..2] != "\\u" || !IsHex4(after[2..6]) || !Wtf8.IsLow(HexValue(after[2..6])) then
        read == None
      else read == Some((Wtf8.EncodeScalar(Wtf8.Combine(HexValue(piece.hex), HexValue(after[2..6]))), after[6..]))
  {
    var s := PieceText(piece)[1..] + after;
    match piece
    case Short(letter) => assert s[0] == letter && s[1..] == after;
    case Escaped(hex) => EscapedParts(hex, after);
  }

  lemma EscapedParts(hex: string, after: string)
    requires |hex| == 4
    ensures var s := ("\\u" + hex)[1..] + after;
      && |s| == 5 + |after| && s[0] == 'u' && s[1..5] == hex && s[5..] == after
      && (|after| >= 6 ==> s[5] == after[0] && s[6] == after[1] && s[7..11] == after[2..6] && s[11..] == after[6..])
  {
    var s := ("\\u" + hex)[1..] + after;
    assert s == "u" + hex + after;
  }

  /** One piece that is no surrogate is read for itself. */
  lemma ReadCharsStep(piece: Piece, after: string, read: string)
    requires IsPiece(piece) && !IsHighPiece(piece) && !IsLowPiece(piece)
    ensures ReadChars(PieceText(piece) + after, read) == ReadChars(after, read + PieceValue(piece))
  {
    var s := PieceText(piece) + after;
    if piece.Raw? {
      assert s[1..] == after;
    } else {
      ReadEscapeOver(piece, after);
      assert s[1..] == PieceText(piece)[1..] + after;
    }
  }

  lemma ReadPairStep(high: Piece, low: Piece, after: string, read: string)
    requires IsHighPiece(high) && IsLowPiece(low)
    ensures ReadChars((PieceText(high) + PieceText(low)) + after, read)
         == ReadChars(after, read + Wtf8.EncodeScalar(Wtf8.Combine(HexValue(high.hex), HexValue(low.hex))))
  {
    var s := (PieceText(high) + PieceText(low)) + after;
    var next := PieceText(low) + after;
    Wtf8.Regroup(PieceText(high), PieceText(low), after);
    ReadEscapeOver(high, next);
    assert s[1..] == PieceText(high)[1..] + next;
    assert next[..2] == "\\u" && next[2..6] == low.hex && next[6..] == after;
  }

  /** A surrogate that is not the first half of a pair ends the reading. */
  lemma UnpairedStep(pieces: seq<Piece>, rest: string, read: string)
    requires ArePieces(pieces) && pieces != [] && !StartsPair(pieces)
    requires IsHighPiece(pieces[0]) || IsLowPiece(pieces[0])
    ensures ReadChars(PiecesText(pieces) + ("\"" + rest), read) == None
  {
    var piece, after := pieces[0], PiecesText(pieces[1..]) + ("\"" + rest);
    var s := PieceText(piece) + after;
    Wtf8.Regroup(PieceText(piece), PiecesText(pieces[1..]), "\"" + rest);
    ReadEscapeOver(piece, after);
    assert s[1..] == PieceText(piece)[1..] + after;
    if |pieces| == 1 {
      assert after[0] == '"';
    } else if IsHighPiece(piece) {
      var next := pieces[1];
      assert pieces[1..][0] == next && IsPiece(next);
      Wtf8.Regroup(PieceText(next), PiecesText(pieces[1..][1..]), "\"" + rest);
      NextIsNoLow(next, PiecesText(pieces[1..][1..]) + ("\"" + rest));
    }
  }

  lemma NextIsNoLow(next: Piece, rest: string)
    requires IsPiece(next) && !IsLowPiece(next)
    ensures var after := PieceText(next) + rest;
      |after| < 6 || after[..2] != "\\u" || !IsHex4(after[2..6]) || !Wtf8.IsLow(HexValue(after[2..6]))
  {
    var after := PieceText(next) + rest;
    match next
    case Raw(c) => assert after[0] == c;
    case Short(letter) => assert after[1] == letter;
    case Escaped(hex) => assert after[2..6] == hex;
  }

  /** The reader takes the pieces of a string token if and only if the surrogates among them are paired. */
  lemma {:induction false} ReadCharsExactly(pieces: seq<Piece>, rest: string, read: string)
    requires ArePieces(pieces)
    ensures ReadChars(PiecesText(pieces) + ("\"" + rest), read)
         == if Paired(pieces) then Some((read + PiecesValue(pieces), rest)) else None
    decreases |pieces|, 1
  {
    if pieces == [] {
      assert PiecesText(pieces) + ("\"" + rest) == "\"" + rest && ("\"" + rest)[1..] == rest;
      assert read + "" == read;
    } else if StartsPair(pieces) {
      PairReadExactly(pieces, rest, read);
    } else if IsHighPiece(pieces[0]) || IsLowPiece(pieces[0]) {
      UnpairedStep(pieces, rest, read);
      assert !PairedAt(pieces, 0);
    } else {
      var piece, others := pieces[0], pieces[1..];
      assert pieces == [piece] + others;
      hide ReadChars, PiecesText, PiecesValue, Paired, PieceText, PieceValue;
      PiecesTextCons(piece, others);
      Wtf8.Regroup(PieceText(piece), PiecesText(others), "\"" + rest);
      ReadCharsStep(piece, PiecesText(others) + ("\"" + rest), read);
      ReadCharsExactly(others, rest, read + PieceValue(piece));
      Wtf8.Regroup(read, PieceValue(piece), PiecesValue(others));
    }
  }

  lemma {:induction false} PairReadExactly(pieces: seq<Piece>, rest: string, read: string)
    requires ArePieces(pieces) && StartsPair(pieces)
    ensures ReadChars(PiecesText(pieces) + ("\"" + rest), read)
         == if Paired(pieces) then Some((read + PiecesValue(pieces), rest)) else None
    decreases |pieces|, 0
  {
    var high, low, others := pieces[0], pieces[1], pieces[2..];
    assert pieces == [high, low] + others;
    PairCons(high, low, others);
    hide ReadChars, PiecesText, PiecesValue, Paired, PieceText, PieceValue, Wtf8.EncodeScalar, Wtf8.Combine, HexValue;
    var value := Wtf8.EncodeScalar(Wtf8.Combine(HexValue(high.hex), HexValue(low.hex)));
    Wtf8.Regroup(PieceText(high) + PieceText(low), PiecesText(others), "\"" + rest);
    ReadPairStep(high, low, PiecesText(others) + ("\"" + rest), read);
    ReadCharsExactly(others, rest, read + value);
    Wtf8.Regroup(read, value, PiecesValue(others));
  }

  /** Every string the parser takes is spelled by pieces whose surrogates are paired. */
  lemma {:induction false} ReadCharsSound(s: string, read: string) returns (pieces: seq<Piece>)
    requires ReadChars(s, read).Some?
    ensures ValidPieces(pieces)
    ensures s == PiecesText(pieces) + ("\"" + ReadChars(s, read).value.1)
    ensures ReadChars(s, read).value.0 == read + PiecesValue(pieces)
    decreases |s|
  {
    var end := ReadChars(s, read).value.1;
    if s[0] == '"' {
      pieces := [];
      assert s == "\"" + s[1..];
    } else if s[0] != '\\' {
      assert s == [s[0]] + s[1..];
      var others := ReadCharsSound(s[1..], read + [s[0]]);
      pieces := OnePiece(Raw(s[0]), others, read, "\"" + end);
    } else {
      var value, rest := ReadEscape(s[1..]).value.0, ReadEscape(s[1..]).value.1;
      assert s == ['\\'] + s[1..];
      var others := ReadCharsSound(rest, read + value);
      var token := s[1..];
      if token[0] == 'u' && Wtf8.IsHigh(HexValue(token[1..5])) {
        PairText(token);
        pieces := TwoPieces(Escaped(token[1..5]), Escaped(token[7..11]), others, read, "\"" + end);
      } else if token[0] == 'u' {
        assert s == "\\u" + token[1..5] + rest;
        pieces := OnePiece(Escaped(token[1..5]), others, read, "\"" + end);
      } else {
        assert s == ['\\', token[0]] + rest;
        pieces := OnePiece(Short(token[0]), others, read, "\"" + end);
      }
    }
  }

  lemma OnePiece(piece: Piece, others: seq<Piece>, read: string, end: string) returns (pieces: seq<Piece>)
    requires IsPiece(piece) && !IsHighPiece(piece) && !IsLowPiece(piece) && ValidPieces(others)
    ensures ValidPieces(pieces)
    ensures PieceText(piece) + (PiecesText(others) + end) == PiecesText(pieces) + end
    ensures (read + PieceValue(piece)) + PiecesValue(others) == read + PiecesValue(pieces)
  {
    pieces := [piece] + others;
    PiecesTextCons(piece, others);
    Wtf8.Regroup(PieceText(piece), PiecesText(others), end);
    Wtf8.Regroup(read, PieceValue(piece), PiecesValue(others));
  }

  lemma TwoPieces(high: Piece, low: Piece, others: seq<Piece>, read: string, end: string)
    returns (pieces: seq<Piece>)
    requires IsHighPiece(high) && IsLowPiece(low) && ValidPieces(others)
    ensures ValidPieces(pieces)
    ensures (PieceText(high) + PieceText(low)) + (PiecesText(others) + end) == PiecesText(pieces) + end
    ensures var value := Wtf8.EncodeScalar(Wtf8.Combine(HexValue(high.hex), HexValue(low.hex)));
      (read + value) + PiecesValue(others) == read + PiecesValue(pieces)
  {
    pieces := [high, low] + others;
    PairCons(high, low, others);
    var value := Wtf8.EncodeScalar(Wtf8.Combine(HexValue(high.hex), HexValue(low.hex)));
    Wtf8.Regroup(PieceText(high) + PieceText(low), PiecesText(others), end);
    Wtf8.Regroup(read, value, PiecesValue(others));
  }

  lemma PairText(s: string)
    requires |s| >= 11 && s[0] == 'u' && s[5] == '\\' && s[6] == 'u'
    ensures ['\\'] + s == (("\\u" + s[1..5]) + ("\\u" + s[7..11])) + s[11..]
  {
    assert s[5..7] == "\\u";
    assert s == "u" + s[1..5] + s[5..7] + s[7..11] + s[11..];
  }

  lemma ReadStringSound(s: string) returns (lead: string, pieces: seq<Piece>)
    requires ReadString(s).Some?
    ensures AllSpace(lead) && ValidPieces(pieces)
    ensures s == lead + (Quoted(pieces) + ReadString(s).value.1)
    ensures s == lead + SkipSpace(s)
    ensures ReadString(s).value.0 == PiecesValue(pieces)
  {
    lead := SkipSpaceSplit(s);
    var token := SkipSpace(s);
    pieces := ReadCharsSound(token[1..], "");
    assert token == "\"" + token[1..];
    var rest := ReadString(s).value.1;
    assert token == "\"" + (PiecesText(pieces) + ("\"" + rest));
    assert token == Quoted(pieces) + rest;
  }

  lemma ReadStringExactly(lead: string, pieces: seq<Piece>, rest: string)
    requires AllSpace(lead) && ArePieces(pieces)
    ensures ReadString(lead + (Quoted(pieces) + rest))
         == if Paired(pieces) then Some((PiecesValue(pieces), rest)) else None
  {
    var token := Quoted(pieces) + rest;
    var chars := PiecesText(pieces) + ("\"" + rest);
    assert token == "\"" + chars && token[0] == '"';
    SkipSpaceOver(lead, token);
    assert token[1..] == chars;
    ReadCharsExactly(pieces, rest, "");
    assert "" + PiecesValue(pieces) == PiecesValue(pieces);
  }
}
