/** The reader decides the grammar: sound and complete, piece by piece. */
module Language {
  import opened Texts
  import opened Grammar
  import opened Reader

  // ---- gaps ----

  lemma {:induction false} LineEndSound(t: Text, i: nat)
    requires i <= |t|
    ensures Newlineless(t[i..LineEnd(t, i)])
    ensures LineEnd(t, i) < |t| ==> IsNewline(t[LineEnd(t, i)])
    decreases |t| - i
  {
    if i < |t| && !IsNewline(t[i]) {
      LineEndSound(t, i + 1);
      assert t[i..LineEnd(t, i)] == [t[i]] + t[i + 1..LineEnd(t, i)];
    }
  }

  lemma {:induction false} LineEndComplete(t: Text, i: nat, j: nat)
    requires i <= j <= |t| && Newlineless(t[i..j])
    requires j < |t| ==> IsNewline(t[j])
    ensures LineEnd(t, i) == j
    decreases j - i
  {
    if i < j {
      assert t[i..j][0] == t[i] && t[i + 1..j] == t[i..j][1..];
      LineEndComplete(t, i + 1, j);
    }
  }

  /** No closing mark of a block comment starts in i..j. */
  predicate NoClose(t: Text, i: nat, j: nat) {
    forall k | i <= k < j :: !(UnitAt(t, k, STAR) && UnitAt(t, k + 1, SLASH))
  }

  lemma {:induction false} CommentEndFirst(t: Text, i: nat)
    requires i <= |t|
    ensures match CommentEnd(t, i)
            case None => NoClose(t, i, |t|)
            case Some(j) => NoClose(t, i, j) && t[j] == STAR && t[j + 1] == SLASH
    decreases |t| - i
  {
    if i < |t| && !(t[i] == STAR && UnitAt(t, i + 1, SLASH)) {
      CommentEndFirst(t, i + 1);
    }
  }

  lemma ClosedComment(t: Text, i: nat, j: nat)
    requires i <= j && j + 2 <= |t| && t[j] == STAR && t[j + 1] == SLASH
    ensures Closeless(t[i..j]) <==> NoClose(t, i, j)
    ensures NoClose(t, i, j) ==> CommentEnd(t, i) == Some(j)
  {
    var body := t[i..j];
    assert body + [STAR, SLASH] == t[i..j + 2];
    if Closeless(body) {
      forall k | i <= k < j ensures !(UnitAt(t, k, STAR) && UnitAt(t, k + 1, SLASH)) {
        assert body[k - i] == t[k];
      }
    }
    if NoClose(t, i, j) {
      forall k | 0 <= k < |body| ensures !(body[k] == STAR && (body + [STAR, SLASH])[k + 1] == SLASH) {
        assert !(UnitAt(t, i + k, STAR) && UnitAt(t, i + k + 1, SLASH));
      }
      CommentEndFirst(t, i);
      assert UnitAt(t, j, STAR) && UnitAt(t, j + 1, SLASH);
    }
  }

  /** A comment with what follows it occurs exactly when its pieces do, one after the other. */
  lemma SpliceLine(t: Text, i: nat, body: Text, g: Gap)
    ensures var j := i + 2 + |body|;
            && (Occurs(t, i, YieldGap(LineComment(body, g)))
                <==> UnitAt(t, i, SLASH) && UnitAt(t, i + 1, SLASH) && Occurs(t, i + 2, body) && Occurs(t, j, YieldGap(g)))
            && i + |YieldGap(LineComment(body, g))| == j + |YieldGap(g)|
  {
    OccursTagged(t, i, SLASH, SLASH, body, YieldGap(g));
  }

  lemma SpliceBlock(t: Text, i: nat, body: Text, g: Gap)
    ensures var j := i + 2 + |body|;
            && (Occurs(t, i, YieldGap(BlockComment(body, g)))
                <==> && UnitAt(t, i, SLASH) && UnitAt(t, i + 1, STAR) && Occurs(t, i + 2, body)
                     && UnitAt(t, j, STAR) && UnitAt(t, j + 1, SLASH) && Occurs(t, j + 2, YieldGap(g)))
            && i + |YieldGap(BlockComment(body, g))| == j + 2 + |YieldGap(g)|
  {
    OccursTagged(t, i, SLASH, STAR, body, [STAR, SLASH] + YieldGap(g));
    OccursPair(t, i + 2 + |body|, STAR, SLASH, YieldGap(g));
  }

  predicate GapStands(t: Text, i: nat, g: Gap, next: nat) {
    && Occurs(t, i, YieldGap(g)) && next == i + |YieldGap(g)| && ValidGap(g, next == |t|)
    && (g.NoGap? ==> next == i) && (g.Space? ==> UnitAt(t, i, g.c))
  }

  lemma {:induction false} SoundGap(t: Text, i: nat)
    requires i <= |t|
    ensures var r := ReadGap(t, i); r.Ok? ==> GapStands(t, i, r.out, r.next)
    decreases |t| - i
  {
    hide LineEnd, CommentEnd;
    var r := ReadGap(t, i);
    if r.Ok? {
      match r.out
      case NoGap =>
      case Space(c, g) =>
        SoundGap(t, i + 1);
        OccursCons(t, i, c, YieldGap(g));
      case LineComment(body, g) =>
        SoundGap(t, LineEnd(t, i + 2));
        SoundLine(t, i);
      case BlockComment(body, g) =>
        SoundGap(t, CommentEnd(t, i + 2).value + 2);
        SoundBlock(t, i);
    }
  }

  lemma SoundLine(t: Text, i: nat)
    requires UnitAt(t, i, SLASH) && UnitAt(t, i + 1, SLASH)
    requires var r := ReadGap(t, LineEnd(t, i + 2));
             r.Ok? && GapStands(t, LineEnd(t, i + 2), r.out, r.next)
    ensures var r := ReadGap(t, i); r.Ok? && GapStands(t, i, r.out, r.next)
  {
    hide Occurs, YieldGap, Closeless, CommentEnd, NoClose;
    hide Occurs, YieldGap, Newlineless;
    var j := LineEnd(t, i + 2);
    LineEndSound(t, i + 2);
    OccursSlice(t, i + 2, t[i + 2..j]);
    SpliceLine(t, i, t[i + 2..j], ReadGap(t, j).out);
  }

  lemma SoundBlock(t: Text, i: nat)
    requires UnitAt(t, i, SLASH) && UnitAt(t, i + 1, STAR) && CommentEnd(t, i + 2).Some?
    requires var j := CommentEnd(t, i + 2).value + 2;
             ReadGap(t, j).Ok? && GapStands(t, j, ReadGap(t, j).out, ReadGap(t, j).next)
    ensures var r := ReadGap(t, i); r.Ok? && GapStands(t, i, r.out, r.next)
  {
    hide Occurs, YieldGap, CommentEnd, Newlineless;
    var j := CommentEnd(t, i + 2).value;
    CommentEndFirst(t, i + 2);
    ClosedComment(t, i + 2, j);
    OccursSlice(t, i + 2, t[i + 2..j]);
    SpliceBlock(t, i, t[i + 2..j], ReadGap(t, j + 2).out);
  }

  /** Nothing that could continue a gap stands at i. */
  predicate GapStops(t: Text, i: nat) {
    i < |t| ==> !IsSpace(t[i]) && t[i] != SLASH
  }

  lemma {:induction false} CompleteGap(t: Text, i: nat, g: Gap)
    requires Occurs(t, i, YieldGap(g)) && ValidGap(g, i + |YieldGap(g)| == |t|)
    requires GapStops(t, i + |YieldGap(g)|)
    ensures ReadGap(t, i) == Ok(g, i + |YieldGap(g)|)
    decreases g
  {
    hide Occurs, LineEnd, CommentEnd;
    match g
    case NoGap =>
    case Space(c, rest) =>
      OccursCons(t, i, c, YieldGap(rest));
      CompleteGap(t, i + 1, rest);
    case LineComment(body, rest) =>
      SpliceLine(t, i, body, rest);
      CompleteGap(t, i + 2 + |body|, rest);
      CompleteLine(t, i, body, rest);
    case BlockComment(body, rest) =>
      SpliceBlock(t, i, body, rest);
      CompleteGap(t, i + 2 + |body| + 2, rest);
      CompleteBlock(t, i, body, rest);
  }

  lemma CompleteLine(t: Text, i: nat, body: Text, rest: Gap)
    requires UnitAt(t, i, SLASH) && UnitAt(t, i + 1, SLASH) && Occurs(t, i + 2, body) && Newlineless(body)
    requires var j := i + 2 + |body|; ReadGap(t, j) == Ok(rest, j + |YieldGap(rest)|)
    requires if rest.NoGap? then i + 2 + |body| == |t| else rest.Space? && IsNewline(rest.c)
    ensures ReadGap(t, i) == Ok(LineComment(body, rest), i + 2 + |body| + |YieldGap(rest)|)
  {
    OccursSlice(t, i + 2, body);
    LineEndComplete(t, i + 2, i + 2 + |body|);
  }

  lemma CompleteBlock(t: Text, i: nat, body: Text, rest: Gap)
    requires UnitAt(t, i, SLASH) && UnitAt(t, i + 1, STAR) && Occurs(t, i + 2, body) && Closeless(body)
    requires var j := i + 2 + |body|; UnitAt(t, j, STAR) && UnitAt(t, j + 1, SLASH)
    requires var j := i + 2 + |body| + 2; ReadGap(t, j) == Ok(rest, j + |YieldGap(rest)|)
    ensures ReadGap(t, i) == Ok(BlockComment(body, rest), i + 2 + |body| + 2 + |YieldGap(rest)|)
  {
    OccursSlice(t, i + 2, body);
    ClosedComment(t, i + 2, i + 2 + |body|);
  }

  // ---- strings ----

  lemma {:induction false} SoundChars(t: Text, i: nat, start: nat)
    requires i <= |t| && start <= |t|
    ensures var r := ReadChars(t, i, start);
            r.Ok? ==> && Occurs(t, i, YieldChars(r.out) + [QUOTE]) && r.next == i + |YieldChars(r.out)| + 1
                      && ValidChars(r.out)
    decreases |t| - i
  {
    var r := ReadChars(t, i, start);
    if r.Ok? {
      match r.out
      case NoChars =>
        assert YieldChars(NoChars) + [QUOTE] == [QUOTE];
        OccursUnit(t, i, QUOTE);
      case Plain(c, s) =>
        SoundChars(t, i + 1, start);
        SplicePlain(t, i, c, s);
      case Escaped(c, s) =>
        SoundChars(t, i + 2, start);
        SpliceEscaped(t, i, c, s);
      case Hex(d, s) =>
        SoundChars(t, i + 6, start);
        OccursSlice(t, i + 2, d);
        SpliceHex(t, i, d, s);
    }
  }

  lemma SplicePlain(t: Text, i: nat, c: CodeUnit, s: Chars)
    ensures Occurs(t, i, YieldChars(Plain(c, s)) + [QUOTE])
       <==> UnitAt(t, i, c) && Occurs(t, i + 1, YieldChars(s) + [QUOTE])
  {
    assert YieldChars(Plain(c, s)) + [QUOTE] == [c] + (YieldChars(s) + [QUOTE]);
    OccursCons(t, i, c, YieldChars(s) + [QUOTE]);
  }

  lemma SpliceEscaped(t: Text, i: nat, c: CodeUnit, s: Chars)
    ensures Occurs(t, i, YieldChars(Escaped(c, s)) + [QUOTE])
       <==> UnitAt(t, i, BACKSLASH) && UnitAt(t, i + 1, c) && Occurs(t, i + 2, YieldChars(s) + [QUOTE])
  {
    assert YieldChars(Escaped(c, s)) + [QUOTE] == [BACKSLASH, c] + (YieldChars(s) + [QUOTE]);
    OccursPair(t, i, BACKSLASH, c, YieldChars(s) + [QUOTE]);
  }

  lemma SpliceHex(t: Text, i: nat, d: Text, s: Chars)
    ensures Occurs(t, i, YieldChars(Hex(d, s)) + [QUOTE])
       <==> && UnitAt(t, i, BACKSLASH) && UnitAt(t, i + 1, U_LOWER) && Occurs(t, i + 2, d)
            && Occurs(t, i + 2 + |d|, YieldChars(s) + [QUOTE])
  {
    assert YieldChars(Hex(d, s)) + [QUOTE] == [BACKSLASH, U_LOWER] + (d + (YieldChars(s) + [QUOTE]));
    OccursTagged(t, i, BACKSLASH, U_LOWER, d, YieldChars(s) + [QUOTE]);
  }

  lemma {:induction false} CompleteChars(t: Text, i: nat, start: nat, s: Chars)
    requires start <= |t| && Occurs(t, i, YieldChars(s) + [QUOTE]) && ValidChars(s)
    ensures ReadChars(t, i, start) == Ok(s, i + |YieldChars(s)| + 1)
    decreases s
  {
    match s
    case NoChars =>
      assert YieldChars(s) + [QUOTE] == [QUOTE];
      OccursUnit(t, i, QUOTE);
    case Plain(c, rest) =>
      SplicePlain(t, i, c, rest);
      CompleteChars(t, i + 1, start, rest);
    case Escaped(c, rest) =>
      SpliceEscaped(t, i, c, rest);
      CompleteChars(t, i + 2, start, rest);
    case Hex(d, rest) =>
      SpliceHex(t, i, d, rest);
      OccursSlice(t, i + 2, d);
      CompleteChars(t, i + 6, start, rest);
  }

  // ---- numbers ----

  lemma {:induction false} DigitsEndSound(t: Text, i: nat)
    requires i <= |t|
    ensures AllDigits(t[i..DigitsEnd(t, i)]) && !DigitAt(t, DigitsEnd(t, i))
    decreases |t| - i
  {
    if DigitAt(t, i) {
      DigitsEndSound(t, i + 1);
      assert t[i..DigitsEnd(t, i)] == [t[i]] + t[i + 1..DigitsEnd(t, i)];
    }
  }

  lemma {:induction false} DigitsEndComplete(t: Text, i: nat, j: nat)
    requires i <= j <= |t| && AllDigits(t[i..j]) && !DigitAt(t, j)
    ensures DigitsEnd(t, i) == j
    decreases j - i
  {
    if i < j {
      assert t[i..j][0] == t[i] && t[i + 1..j] == t[i..j][1..];
      DigitsEndComplete(t, i + 1, j);
    }
  }

  lemma SoundFrac(t: Text, i: nat)
    requires i <= |t|
    ensures var r := ReadFrac(t, i);
            r.Ok? ==> Occurs(t, i, YieldFrac(r.out)) && r.next == i + |YieldFrac(r.out)| && AllDigits(r.out)
  {
    var r := ReadFrac(t, i);
    if r.Ok? && UnitAt(t, i, DOT) {
      DigitsEndSound(t, i + 1);
      OccursSlice(t, i + 1, r.out);
      OccursCons(t, i, DOT, r.out);
      OccursUnit(t, i, DOT);
    }
  }

  lemma SoundExp(t: Text, i: nat)
    requires i <= |t|
    ensures var r := ReadExp(t, i);
            r.Ok? ==> && Occurs(t, i, YieldExp(r.out)) && r.next == i + |YieldExp(r.out)|
                      && (r.out.Some? ==> ValidExponent(r.out.value))
  {
    hide DigitsEnd, Occurs;
    OccursNothing(t, i);
    var r := ReadExp(t, i);
    if r.Ok? && r.out.Some? {
      var e, j := r.out.value, SignEnd(t, i + 1);
      DigitsEndSound(t, j);
      OccursSlice(t, i + 1, e.sign);
      OccursSlice(t, j, e.digits);
      OccursConcat(t, i + 1, e.sign, e.digits);
      OccursCons(t, i, e.mark, e.sign + e.digits);
      OccursUnit(t, i, e.mark);
    }
  }

  lemma SoundWhole(t: Text, i: nat)
    requires i <= |t|
    ensures var r := ReadWhole(t, i);
            r.Ok? ==> && Occurs(t, i, r.out) && r.next == i + |r.out|
                      && AllDigits(r.out) && r.out != [] && (r.out[0] == ZERO ==> |r.out| == 1)
  {
    OccursUnit(t, i, ZERO);
    DigitsEndSound(t, i);
    OccursSlice(t, i, t[i..DigitsEnd(t, i)]);
  }

  lemma SoundMinus(t: Text, i: nat)
    requires i <= |t|
    ensures Occurs(t, i, YieldMinus(UnitAt(t, i, MINUS)))
  {
    OccursUnit(t, i, MINUS);
  }

  lemma SoundNumber(t: Text, i: nat)
    requires i <= |t|
    ensures var r := ReadNumber(t, i);
            r.Ok? ==> Occurs(t, i, YieldNumber(r.out)) && r.next == i + |YieldNumber(r.out)| && ValidNumber(r.out)
  {
    hide ReadWhole, ReadFrac, ReadExp, YieldFrac, YieldExp, YieldNumber, Occurs, ValidExponent;
    if ReadNumber(t, i).Ok? {
      var minus := UnitAt(t, i, MINUS);
      var w := i + |YieldMinus(minus)|;
      var (whole, j) := ReadWhole(t, w).Extract();
      var (frac, k) := ReadFrac(t, j).Extract();
      var (exp, n) := ReadExp(t, k).Extract();
      assert ReadNumber(t, i) == Ok(Number(minus, whole, frac, exp), n);
      SoundMinus(t, i);
      SoundWhole(t, w);
      SoundFrac(t, j);
      SoundExp(t, k);
      SpliceNumber(t, i, Number(minus, whole, frac, exp));
    }
  }

  /** A number occurs exactly when its parts do, one after the other. */
  lemma SpliceNumber(t: Text, i: nat, x: Number)
    ensures var w := i + |YieldMinus(x.minus)|;
            var j := w + |x.whole|;
            var k := j + |YieldFrac(x.frac)|;
            && (Occurs(t, i, YieldNumber(x)) <==> Occurs(t, i, YieldMinus(x.minus)) && Occurs(t, w, x.whole)
                                                  && Occurs(t, j, YieldFrac(x.frac)) && Occurs(t, k, YieldExp(x.exp)))
            && i + |YieldNumber(x)| == k + |YieldExp(x.exp)|
  {
    var w := i + |YieldMinus(x.minus)|;
    var j := w + |x.whole|;
    OccursConcat(t, i, YieldMinus(x.minus), x.whole + (YieldFrac(x.frac) + YieldExp(x.exp)));
    OccursConcat(t, w, x.whole, YieldFrac(x.frac) + YieldExp(x.exp));
    OccursConcat(t, j, YieldFrac(x.frac), YieldExp(x.exp));
  }

  /** Nothing that could continue a number stands at i. */
  predicate NumberStops(t: Text, i: nat) {
    i < |t| ==> !IsDigit(t[i]) && t[i] != DOT && t[i] != E_LOWER && t[i] != E_UPPER
  }

  lemma CompleteExp(t: Text, i: nat, e: Option<Exponent>)
    requires Occurs(t, i, YieldExp(e)) && (e.Some? ==> ValidExponent(e.value))
    requires NumberStops(t, i + |YieldExp(e)|)
    ensures ReadExp(t, i) == Ok(e, i + |YieldExp(e)|)
    ensures e.Some? ==> UnitAt(t, i, e.value.mark)
  {
    if e.Some? {
      var Exponent(mark, sign, digits) := e.value;
      var j := i + 1 + |sign|;
      OccursCons(t, i, mark, sign + digits);
      OccursConcat(t, i + 1, sign, digits);
      OccursAt(t, j, digits, 0);
      if sign != [] { OccursAt(t, i + 1, sign, 0); }
      OccursSlice(t, i + 1, sign);
      OccursSlice(t, j, digits);
      DigitsEndComplete(t, j, j + |digits|);
    }
  }

  lemma CompleteFrac(t: Text, i: nat, frac: Text)
    requires Occurs(t, i, YieldFrac(frac)) && AllDigits(frac)
    requires !DigitAt(t, i + |YieldFrac(frac)|) && (frac == [] ==> !UnitAt(t, i, DOT))
    ensures ReadFrac(t, i) == Ok(frac, i + |YieldFrac(frac)|)
    ensures frac != [] ==> UnitAt(t, i, DOT)
  {
    if frac != [] {
      OccursCons(t, i, DOT, frac);
      OccursSlice(t, i + 1, frac);
      OccursAt(t, i + 1, frac, 0);
      DigitsEndComplete(t, i + 1, i + 1 + |frac|);
    }
  }

  lemma CompleteWhole(t: Text, i: nat, whole: Text)
    requires Occurs(t, i, whole) && AllDigits(whole) && whole != [] && (whole[0] == ZERO ==> |whole| == 1)
    requires !DigitAt(t, i + |whole|)
    ensures ReadWhole(t, i) == Ok(whole, i + |whole|) && DigitAt(t, i)
  {
    OccursAt(t, i, whole, 0);
    OccursSlice(t, i, whole);
    DigitsEndComplete(t, i, i + |whole|);
    assert whole[0] == ZERO ==> whole == [ZERO];
  }

  lemma CompleteNumber(t: Text, i: nat, x: Number)
    requires Occurs(t, i, YieldNumber(x)) && ValidNumber(x)
    requires NumberStops(t, i + |YieldNumber(x)|)
    ensures ReadNumber(t, i) == Ok(x, i + |YieldNumber(x)|)
    ensures UnitAt(t, i, MINUS) || DigitAt(t, i)
  {
    hide ReadWhole, ReadFrac, ReadExp, YieldNumber, ReadNumber, DigitsEnd;
    var Number(minus, whole, frac, exp) := x;
    var w := i + |YieldMinus(minus)|;
    var j := w + |whole|;
    var k := j + |YieldFrac(frac)|;
    var n := k + |YieldExp(exp)|;
    SpliceNumber(t, i, x);
    CompleteExp(t, k, exp);
    CompleteFrac(t, j, frac);
    CompleteWhole(t, w, whole);
    OccursUnit(t, i, MINUS);
    AssembleNumber(t, i, minus, whole, j, frac, k, exp, n);
  }

  lemma AssembleNumber(
    t: Text, i: nat, minus: bool, whole: Text, j: nat, frac: Text, k: nat, exp: Option<Exponent>, n: nat)
    requires i < |t| && j <= |t| && k <= |t| && minus == UnitAt(t, i, MINUS)
    requires ReadWhole(t, if minus then i + 1 else i) == Ok(whole, j)
    requires ReadFrac(t, j) == Ok(frac, k) && ReadExp(t, k) == Ok(exp, n)
    requires NumberStops(t, n)
    ensures ReadNumber(t, i) == Ok(Number(minus, whole, frac, exp), n)
  {
  }

  // ---- values ----

  lemma SpliceQuoted(t: Text, i: nat, s: Chars)
    ensures Occurs(t, i, YieldQuoted(s)) <==> UnitAt(t, i, QUOTE) && Occurs(t, i + 1, YieldChars(s) + [QUOTE])
  {
    OccursCons(t, i, QUOTE, YieldChars(s) + [QUOTE]);
  }

  lemma SpliceProperty(t: Text, i: nat, p: Property)
    ensures var j := i + |YieldQuoted(p.name)|;
            var k := j + |YieldGap(p.beforeColon)|;
            && (Occurs(t, i, YieldProperty(Some(p)))
                <==> && Occurs(t, i, YieldQuoted(p.name)) && Occurs(t, j, YieldGap(p.beforeColon))
                     && UnitAt(t, k, COLON) && Occurs(t, k + 1, YieldGap(p.afterColon)))
            && i + |YieldProperty(Some(p))| == k + 1 + |YieldGap(p.afterColon)|
  {
    hide Occurs, YieldGap, YieldQuoted;
    var b, c := YieldGap(p.beforeColon), YieldGap(p.afterColon);
    var j := i + |YieldQuoted(p.name)|;
    OccursCons(t, j + |b|, COLON, c);
    OccursConcat(t, j, b, [COLON] + c);
    OccursConcat(t, i, YieldQuoted(p.name), b + ([COLON] + c));
  }

  lemma SpliceElem(t: Text, i: nat, e: Elem)
    ensures var j := i + |YieldGap(e.before)|;
            var k := j + |YieldProperty(e.prop)|;
            var m := k + |YieldTree(e.tree)|;
            && (Occurs(t, i, YieldElem(e))
                <==> && Occurs(t, i, YieldGap(e.before)) && Occurs(t, j, YieldProperty(e.prop))
                     && Occurs(t, k, YieldTree(e.tree)) && Occurs(t, m, YieldGap(e.after)))
            && i + |YieldElem(e)| == m + |YieldGap(e.after)|
  {
    hide Occurs, YieldGap, YieldTree, YieldProperty;
    var a, p, v, b := YieldGap(e.before), YieldProperty(e.prop), YieldTree(e.tree), YieldGap(e.after);
    var j := i + |a|;
    OccursConcat(t, j + |p|, v, b);
    OccursConcat(t, j, p, v + b);
    OccursConcat(t, i, a, p + (v + b));
  }

  lemma SpliceLast(t: Text, i: nat, e: Elem, isObject: bool)
    ensures var n := i + |YieldElem(e)|;
            && (Occurs(t, i, YieldElems(Last(e), isObject)) <==> Occurs(t, i, YieldElem(e)) && UnitAt(t, n, Closing(isObject)))
            && i + |YieldElems(Last(e), isObject)| == n + 1
  {
    OccursUnit(t, i + |YieldElem(e)|, Closing(isObject));
    OccursConcat(t, i, YieldElem(e), [Closing(isObject)]);
  }

  lemma SpliceMore(t: Text, i: nat, e: Elem, rest: Elems, isObject: bool)
    ensures var n := i + |YieldElem(e)|;
            && (Occurs(t, i, YieldElems(More(e, rest), isObject))
                <==> Occurs(t, i, YieldElem(e)) && UnitAt(t, n, COMMA) && Occurs(t, n + 1, YieldElems(rest, isObject)))
            && i + |YieldElems(More(e, rest), isObject)| == n + 1 + |YieldElems(rest, isObject)|
  {
    OccursCons(t, i + |YieldElem(e)|, COMMA, YieldElems(rest, isObject));
    OccursConcat(t, i, YieldElem(e), [COMMA] + YieldElems(rest, isObject));
  }

  lemma SoundProperty(t: Text, i: nat)
    requires i <= |t|
    ensures var r := ReadProperty(t, i);
            r.Ok? ==> && Occurs(t, i, YieldProperty(Some(r.out))) && r.next == i + |YieldProperty(Some(r.out))|
                      && (r.next < |t| ==> ValidProperty(Some(r.out)))
  {
    hide ReadGap, ReadChars, YieldGap, YieldProperty, Occurs;
    var r := ReadProperty(t, i);
    if r.Ok? {
      var (name, j) := ReadChars(t, i + 1, i).Extract();
      var (before, k) := ReadGap(t, j).Extract();
      var (after, n) := ReadGap(t, k + 1).Extract();
      assert r == Ok(Property(name, before, after), n);
      SoundChars(t, i + 1, i);
      SpliceQuoted(t, i, name);
      SoundGap(t, j);
      SoundGap(t, k + 1);
      SpliceProperty(t, i, r.out);
    }
  }

  lemma SoundHead(t: Text, i: nat, isObject: bool)
    requires i <= |t|
    ensures var r := ReadHead(t, i, isObject);
            r.Ok? ==> && Occurs(t, i, YieldProperty(r.out)) && r.next == i + |YieldProperty(r.out)|
                      && r.out.Some? == isObject && (r.next < |t| ==> ValidProperty(r.out))
  {
    hide ReadProperty, ValidProperty;
    if isObject { SoundProperty(t, i); }
    assert !isObject ==> ValidProperty(None) by { ValidNoProperty(); }
  }

  lemma ValidNoProperty()
    ensures ValidProperty(None)
  {
  }

  /** Nested within what is left of the limit; a bare value nests nothing. */
  predicate Fits(nested: nat, depth: nat, maxDepth: nat) {
    nested == 0 || depth + nested <= maxDepth
  }

  predicate TreeStands(t: Text, i: nat, v: Tree, next: nat) {
    Occurs(t, i, YieldTree(v)) && next == i + |YieldTree(v)| && ValidTree(v)
  }

  predicate ElemsStand(t: Text, i: nat, es: Elems, isObject: bool, next: nat) {
    Occurs(t, i, YieldElems(es, isObject)) && next == i + |YieldElems(es, isObject)| && ValidElems(es, isObject)
  }

  lemma {:induction false} SoundTree(t: Text, i: nat, depth: nat, maxDepth: nat)
    requires i <= |t|
    ensures var r := ReadTree(t, i, depth, maxDepth);
            r.Ok? ==> TreeStands(t, i, r.out, r.next) && Fits(Depth(r.out), depth, maxDepth)
    decreases |t| - i, 0
  {
    hide ReadNumber, ReadChars, ReadElems, YieldElems, YieldNumber, YieldChars, Occurs, ValidElems, DepthElems;
    var r := ReadTree(t, i, depth, maxDepth);
    if r.Ok? {
      match r.out
      case List(isObject, es) =>
        SoundElems(t, i + 1, isObject, depth + 1, maxDepth);
        OccursCons(t, i, Opening(isObject), YieldElems(es, isObject));
      case Quoted(s) =>
        SoundChars(t, i + 1, i);
        SpliceQuoted(t, i, s);
      case Numeral(_) =>
        SoundNumber(t, i);
      case Literal(_) =>
    }
  }

  lemma {:induction false} SoundElems(t: Text, i: nat, isObject: bool, depth: nat, maxDepth: nat)
    requires i <= |t| && 0 < depth <= maxDepth
    ensures var r := ReadElems(t, i, isObject, depth, maxDepth);
            r.Ok? ==> ElemsStand(t, i, r.out, isObject, r.next) && Fits(DepthElems(r.out), depth, maxDepth)
    decreases |t| - i, 2
  {
    hide ReadGap, ReadElem, YieldGap, YieldElem, Occurs, Depth;
    var r := ReadElems(t, i, isObject, depth, maxDepth);
    if r.Ok? {
      var (before, j) := ReadGap(t, i).Extract();
      SoundGap(t, i);
      if UnitAt(t, j, Closing(isObject)) {
        OccursUnit(t, j, Closing(isObject));
        OccursConcat(t, i, YieldGap(before), [Closing(isObject)]);
      } else {
        SoundElem(t, i, before, j, isObject, depth, maxDepth);
        var (e, n) := ReadElem(t, j, before, isObject, depth, maxDepth).Extract();
        if t[n] == COMMA {
          SoundElems(t, n + 1, isObject, depth, maxDepth);
          SpliceMore(t, i, e, ReadElems(t, n + 1, isObject, depth, maxDepth).out, isObject);
        } else {
          SpliceLast(t, i, e, isObject);
        }
      }
    }
  }

  lemma {:induction false} SoundElem(
    t: Text, i: nat, before: Gap, j: nat, isObject: bool, depth: nat, maxDepth: nat)
    requires i <= j <= |t| && 0 < depth <= maxDepth && ReadGap(t, i) == Ok(before, j)
    ensures var r := ReadElem(t, j, before, isObject, depth, maxDepth);
            r.Ok? ==> && Occurs(t, i, YieldElem(r.out)) && r.next == i + |YieldElem(r.out)|
                      && ValidElem(r.out, isObject) && Fits(Depth(r.out.tree), depth, maxDepth)
    decreases |t| - j, 1
  {
    hide ReadGap, ReadHead, ReadTree, YieldGap, YieldElem, YieldProperty, YieldTree, ValidProperty, ValidTree, Occurs,
         Depth;
    if ReadElem(t, j, before, isObject, depth, maxDepth).Ok? {
      var (prop, k) := ReadHead(t, j, isObject).Extract();
      var (v, m) := ReadTree(t, k, depth, maxDepth).Extract();
      var (after, n) := ReadGap(t, m).Extract();
      SoundGap(t, i);
      SoundHead(t, j, isObject);
      SoundTree(t, k, depth, maxDepth);
      SoundGap(t, m);
      SpliceElem(t, i, Elem(before, prop, v, after));
    }
  }

  lemma {:induction false} CompleteTree(t: Text, i: nat, v: Tree, depth: nat, maxDepth: nat)
    requires Occurs(t, i, YieldTree(v)) && ValidTree(v) && Fits(Depth(v), depth, maxDepth)
    requires NumberStops(t, i + |YieldTree(v)|)
    ensures ReadTree(t, i, depth, maxDepth) == Ok(v, i + |YieldTree(v)|)
    ensures GapStops(t, i) && !UnitAt(t, i, COMMA) && !UnitAt(t, i, RBRACKET) && i < |t| && t[i] != BOM
    decreases v
  {
    hide ReadNumber, ReadChars, ReadElems, YieldElems, YieldNumber;
    match v
    case List(isObject, es) =>
      OccursCons(t, i, Opening(isObject), YieldElems(es, isObject));
      CompleteElems(t, i + 1, es, isObject, depth + 1, maxDepth);
    case Quoted(s) =>
      SpliceQuoted(t, i, s);
      CompleteChars(t, i + 1, i, s);
    case Numeral(x) =>
      CompleteNumber(t, i, x);
    case Literal(w) =>
      OccursAt(t, i, YieldWord(w), 0);
      WordsDiffer(t, i, w);
  }

  lemma WordsDiffer(t: Text, i: nat, w: Word)
    requires Occurs(t, i, YieldWord(w))
    ensures Occurs(t, i, TRUE_WORD) ==> w == True
    ensures Occurs(t, i, FALSE_WORD) ==> w == False
    ensures Occurs(t, i, NULL_WORD) ==> w == Null
  {
    OccursAt(t, i, YieldWord(w), 0);
    if Occurs(t, i, TRUE_WORD) { OccursAt(t, i, TRUE_WORD, 0); }
    if Occurs(t, i, FALSE_WORD) { OccursAt(t, i, FALSE_WORD, 0); }
    if Occurs(t, i, NULL_WORD) { OccursAt(t, i, NULL_WORD, 0); }
  }

  lemma CompleteProperty(t: Text, i: nat, p: Property)
    requires Occurs(t, i, YieldProperty(Some(p))) && ValidProperty(Some(p))
    requires GapStops(t, i + |YieldProperty(Some(p))|) && i + |YieldProperty(Some(p))| < |t|
    ensures ReadProperty(t, i) == Ok(p, i + |YieldProperty(Some(p))|)
    ensures UnitAt(t, i, QUOTE)
  {
    hide ReadGap, ReadChars, YieldGap, YieldProperty, Occurs, YieldChars;
    var j := i + |YieldQuoted(p.name)|;
    var k := j + |YieldGap(p.beforeColon)|;
    SpliceProperty(t, i, p);
    SpliceQuoted(t, i, p.name);
    CompleteChars(t, i + 1, i, p.name);
    CompleteGap(t, j, p.beforeColon);
    CompleteGap(t, k + 1, p.afterColon);
  }

  lemma CompleteHead(t: Text, i: nat, prop: Option<Property>, isObject: bool)
    requires Occurs(t, i, YieldProperty(prop)) && ValidProperty(prop) && prop.Some? == isObject
    requires var k := i + |YieldProperty(prop)|;
             k < |t| && GapStops(t, k) && !UnitAt(t, k, COMMA) && !UnitAt(t, k, RBRACKET)
    ensures ReadHead(t, i, isObject) == Ok(prop, i + |YieldProperty(prop)|)
    ensures GapStops(t, i) && !UnitAt(t, i, Closing(isObject))
  {
    hide ReadProperty, Occurs;
    if isObject { CompleteProperty(t, i, prop.value); }
  }

  lemma {:induction false} CompleteElems(t: Text, i: nat, es: Elems, isObject: bool, depth: nat, maxDepth: nat)
    requires Occurs(t, i, YieldElems(es, isObject)) && ValidElems(es, isObject) && Fits(DepthElems(es), depth, maxDepth)
    ensures ReadElems(t, i, isObject, depth, maxDepth) == Ok(es, i + |YieldElems(es, isObject)|)
    decreases es
  {
    hide ReadGap, ReadElem, YieldGap, YieldElem, Occurs, ValidElem, ValidGap, Depth;
    match es
    case Close(g) =>
      OccursConcat(t, i, YieldGap(g), [Closing(isObject)]);
      OccursUnit(t, i + |YieldGap(g)|, Closing(isObject));
      CompleteGap(t, i, g);
    case Last(e) =>
      SpliceLast(t, i, e, isObject);
      CompleteElem(t, i, e, isObject, depth, maxDepth);
    case More(e, rest) =>
      SpliceMore(t, i, e, rest, isObject);
      CompleteElem(t, i, e, isObject, depth, maxDepth);
      CompleteElems(t, i + |YieldElem(e)| + 1, rest, isObject, depth, maxDepth);
  }

  lemma {:induction false} CompleteElem(t: Text, i: nat, e: Elem, isObject: bool, depth: nat, maxDepth: nat)
    requires Occurs(t, i, YieldElem(e)) && ValidElem(e, isObject) && Fits(Depth(e.tree), depth, maxDepth)
    requires var n := i + |YieldElem(e)|; n < |t| && (t[n] == COMMA || t[n] == Closing(isObject))
    ensures var j := i + |YieldGap(e.before)|;
            && ReadGap(t, i) == Ok(e.before, j) && j <= |t| && !UnitAt(t, j, Closing(isObject))
            && ReadElem(t, j, e.before, isObject, depth, maxDepth) == Ok(e, i + |YieldElem(e)|)
    decreases e
  {
    hide ReadGap, ReadHead, ReadTree, YieldGap, YieldElem, YieldProperty, YieldTree, ValidGap, ValidTree,
         ValidProperty, Occurs, Depth;
    var j := i + |YieldGap(e.before)|;
    var k := j + |YieldProperty(e.prop)|;
    var m := k + |YieldTree(e.tree)|;
    SpliceElem(t, i, e);
    ClosedGap(t, m, e.after);
    CompleteTree(t, k, e.tree, depth, maxDepth);
    CompleteHead(t, j, e.prop, isObject);
    ClosedGap(t, i, e.before);
  }

  /** A gap inside a list: something stands after it. */
  lemma ClosedGap(t: Text, i: nat, g: Gap)
    requires Occurs(t, i, YieldGap(g)) && ValidGap(g, false)
    requires var n := i + |YieldGap(g)|; n < |t| && GapStops(t, n)
    ensures ReadGap(t, i) == Ok(g, i + |YieldGap(g)|)
    ensures NumberStops(t, i + |YieldGap(g)|) ==> NumberStops(t, i)
  {
    CompleteGap(t, i, g);
    if !g.NoGap? { OccursAt(t, i, YieldGap(g), 0); }
  }

  // ---- documents ----

  /** The characters of the document: a leading byte order mark is not one. */
  function Body(t: Text): Text {
    t[Origin(t)..]
  }

  lemma SpliceDocument(t: Text, i: nat, d: Document)
    ensures var j := i + |YieldGap(d.before)|;
            var k := j + |YieldTree(d.root)|;
            && (Occurs(t, i, YieldDocument(d))
                <==> Occurs(t, i, YieldGap(d.before)) && Occurs(t, j, YieldTree(d.root)) && Occurs(t, k, YieldGap(d.after)))
            && i + |YieldDocument(d)| == k + |YieldGap(d.after)|
  {
    hide YieldGap, YieldTree, Occurs;
    OccursConcat(t, i + |YieldGap(d.before)|, YieldTree(d.root), YieldGap(d.after));
    OccursConcat(t, i, YieldGap(d.before), YieldTree(d.root) + YieldGap(d.after));
  }

  lemma SoundDocument(t: Text, maxDepth: nat)
    ensures var r := ReadDocument(t, maxDepth);
            r.Ok? ==> ValidDocument(r.out) && YieldDocument(r.out) == Body(t) && Depth(r.out.root) <= maxDepth
  {
    hide ReadGap, ReadTree, YieldGap, YieldTree, YieldDocument, Occurs, Depth;
    if ReadDocument(t, maxDepth).Ok? {
      var o := Origin(t);
      var (before, i) := ReadGap(t, o).Extract();
      var (root, j) := ReadTree(t, i, 0, maxDepth).Extract();
      var (after, n) := ReadGap(t, j).Extract();
      SoundGap(t, o);
      SoundTree(t, i, 0, maxDepth);
      SoundGap(t, j);
      SpliceDocument(t, o, Document(before, root, after));
      OccursSlice(t, o, YieldDocument(Document(before, root, after)));
    }
  }

  lemma CompleteDocument(t: Text, d: Document, maxDepth: nat)
    requires ValidDocument(d) && YieldDocument(d) == Body(t) && Depth(d.root) <= maxDepth
    ensures ReadDocument(t, maxDepth) == Ok(d, |t|)
  {
    hide ReadGap, ReadTree, YieldGap, YieldTree, YieldDocument, Occurs, Depth, ValidGap, ValidTree;
    var o := Origin(t);
    var i := o + |YieldGap(d.before)|;
    var j := i + |YieldTree(d.root)|;
    OccursSlice(t, o, YieldDocument(d));
    SpliceDocument(t, o, d);
    CompleteGap(t, j, d.after);
    AfterRoot(t, j, d.after);
    CompleteTree(t, i, d.root, 0, maxDepth);
    ClosedGap(t, o, d.before);
  }

  lemma AfterRoot(t: Text, i: nat, g: Gap)
    requires Occurs(t, i, YieldGap(g)) && ValidGap(g, true) && i + |YieldGap(g)| == |t|
    ensures NumberStops(t, i)
  {
    if !g.NoGap? { OccursAt(t, i, YieldGap(g), 0); }
  }

  /**
   * The reader decides the language: it reads a text exactly when a valid document within the depth limit spells
   * it.
   */
  lemma ReaderDecidesLanguage(t: Text, maxDepth: nat)
    ensures ReadDocument(t, maxDepth).Ok?
       <==> exists d :: ValidDocument(d) && YieldDocument(d) == Body(t) && Depth(d.root) <= maxDepth
  {
    SoundDocument(t, maxDepth);
    if d :| ValidDocument(d) && YieldDocument(d) == Body(t) && Depth(d.root) <= maxDepth {
      CompleteDocument(t, d, maxDepth);
    }
  }

  /** The grammar is unambiguous: two valid documents never spell the same text. */
  lemma GrammarIsUnambiguous(t: Text, d: Document, e: Document)
    requires ValidDocument(d) && ValidDocument(e) && YieldDocument(d) == Body(t) == YieldDocument(e)
    ensures d == e
  {
    CompleteDocument(t, d, Max(Depth(d.root), Depth(e.root)));
    CompleteDocument(t, e, Max(Depth(d.root), Depth(e.root)));
  }
}
