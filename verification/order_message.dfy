/** The order summary of `generarMensajeWhatsApp`, before percent-encoding:
    a fixed header, one block per cart line in cart order (blank line
    between blocks), a TOTAL line, and a fixed closing. */
module OrderMessage {
  import opened Text
  import opened Cart
  import opened Outcomes

  const Rule: string := "━━━━━━━━━━━━━━━━━━"

  const Header: string :=
    "🍽️ *¿QUÉ COMEMOS HOY?* 🍽️\n\n"
    + "✨ *¡Nuevo Pedido!* ✨\n"
    + Rule + "\n\n"
    + "📦 *Detalle del pedido:*\n\n"

  /** Everything between the last block and the printed total. */
  const TotalLead: string := "\n" + Rule + "\n" + "💰 *TOTAL A PAGAR: $"

  /** Everything after the printed total.  The last character of the source
      literal is U+FFFD, a replacement character where an emoji was lost. */
  const Closing: string :=
    "*\n" + Rule + "\n\n"
    + "🙏 ¡Gracias por tu pedido!\n"
    + "⏰ Te contactaremos pronto para confirmar \U{FFFD}"

  /** "unidad", pluralised iff the quantity is greater than one. */
  function UnitWord(cantidad: int): (w: string)
    ensures StartsWith(w, "unidad")
    ensures w == "unidades" <==> cantidad > 1
    ensures w == "unidad" <==> cantidad <= 1
  {
    "unidad" + (if cantidad > 1 then "es" else "")
  }

  /** The four lines printed for one cart line. */
  function Block(l: Line): string {
    "🍴 *" + l.producto + "*\n"
    + "   📊 Cantidad: " + IntToString(l.cantidad) + " " + UnitWord(l.cantidad) + "\n"
    + "   💵 Precio c/u: $" + IntToString(l.precio) + "\n"
    + "   💳 Subtotal: $" + IntToString(Subtotal(l)) + "\n"
  }

  /** `f` applied to every line, in cart order. */
  function MapLines(c: Cart, f: Line -> string): (ss: seq<string>)
    ensures |ss| == |c|
    ensures forall i :: 0 <= i < |c| ==> ss[i] == f(c[i])
  {
    seq(|c|, i requires 0 <= i < |c| => f(c[i]))
  }

  lemma {:induction false} MapLinesAppend(a: Cart, b: Cart, f: Line -> string)
    ensures MapLines(a + b, f) == MapLines(a, f) + MapLines(b, f)
  {
  }

  /** The block of every line, in cart order. */
  function Blocks(c: Cart): seq<string> {
    MapLines(c, Block)
  }

  /** The blocks of all lines, separated by an empty line (the `forEach`
      that adds "\n" after every block but the last). */
  function Body(c: Cart): string {
    if |c| == 0 then "" else Join(Blocks(c), '\n')
  }

  /** The message: empty for an empty cart. */
  function Message(c: Cart): (m: string)
    ensures |c| == 0 <==> m == ""
    ensures |c| > 0 ==> StartsWith(m, Header)
  {
    if |c| == 0 then ""
    else
      var body, total := Body(c), IntToString(Total(c));
      PrefixStartsWith(Header, body);
      StartsWithAppend(Header + body, TotalLead, Header);
      StartsWithAppend(Header + body + TotalLead, total, Header);
      StartsWithAppend(Header + body + TotalLead + total, Closing, Header);
      Header + body + TotalLead + total + Closing
  }

  /** The body of a concatenation is the two bodies with one separating
      empty line: blocks come out in cart order, one per line. */
  lemma {:induction false} BodyAppend(a: Cart, b: Cart)
    requires |a| > 0 && |b| > 0
    ensures Body(a + b) == Body(a) + "\n" + Body(b)
  {
    MapLinesAppend(a, b, Block);
    JoinAppend(Blocks(a), Blocks(b), '\n');
  }

  /** One line gives exactly its own block. */
  lemma {:induction false} BodySingle(l: Line)
    ensures Body([l]) == Block(l)
  {
    assert Blocks([l]) == [Block(l)];
  }

  // ---------------------------------------------------------------------
  // Reading the total back out of a message.
  // ---------------------------------------------------------------------

  /** The number of digits at the end of `s`. */
  function TrailingDigits(s: string): (n: nat)
    ensures n <= |s|
  {
    if |s| > 0 && IsDigit(s[|s| - 1]) then 1 + TrailingDigits(s[..|s| - 1]) else 0
  }

  lemma {:induction false} TrailingDigitsOfNumeral(p: string, d: string)
    requires |d| >= 1 && AllDigits(d)
    requires |p| > 0 && !IsDigit(p[|p| - 1])
    ensures TrailingDigits(p + d) == |d|
    decreases |d|
  {
    var s := p + d;
    assert s[..|s| - 1] == p + d[..|d| - 1];
    if |d| == 1 {
      assert p + d[..0] == p;
    } else {
      TrailingDigitsOfNumeral(p, d[..|d| - 1]);
    }
  }

  /** A numeral read with what precedes it: negative after a '-'. */
  function ReadNumeral(before: string, digits: string): Option<int>
    requires |digits| >= 1 && AllDigits(digits)
  {
    if |before| > 0 && before[|before| - 1] == '-' then Some(-(ParseNat(digits) as int))
    else Some(ParseNat(digits))
  }

  /** The integer printed at the end of `s`, if `s` ends with digits. */
  function ReadTrailingInt(s: string): Option<int> {
    var n := TrailingDigits(s);
    if n == 0 then None
    else
      TrailingAreDigits(s);
      ReadNumeral(s[..|s| - n], s[|s| - n..])
  }

  lemma {:induction false} TrailingAreDigits(s: string)
    ensures AllDigits(s[|s| - TrailingDigits(s)..])
  {
    if |s| > 0 && IsDigit(s[|s| - 1]) {
      var t := s[..|s| - 1];
      TrailingAreDigits(t);
      assert s[|s| - TrailingDigits(s)..] == t[|t| - TrailingDigits(t)..] + [s[|s| - 1]];
    }
  }

  /** What a reader of the message takes as the total: the number just
      before the fixed closing text. */
  function ReadTotal(m: string): Option<int> {
    if EndsWith(m, Closing) then ReadTrailingInt(m[..|m| - |Closing|]) else None
  }

  /** Digits after a non-digit are read as exactly that numeral, with what
      precedes it. */
  lemma {:induction false} ReadAfter(p: string, d: string)
    requires |d| >= 1 && AllDigits(d)
    requires |p| > 0 && !IsDigit(p[|p| - 1])
    ensures ReadTrailingInt(p + d) == ReadNumeral(p, d)
  {
    var s := p + d;
    TrailingDigitsOfNumeral(p, d);
    assert s[|s| - |d|..] == d;
    assert s[..|s| - |d|] == p;
  }

  /** A numeral preceded by '$' reads back as the number printed. */
  lemma {:induction false} ReadPrinted(p: string, n: int)
    requires |p| > 0 && p[|p| - 1] == '$'
    ensures ReadTrailingInt(p + IntToString(n)) == Some(n)
  {
    if n >= 0 {
      ReadPrintedNat(p, n);
    } else {
      ReadPrintedNeg(p, n);
    }
  }

  lemma {:induction false} ReadPrintedNat(p: string, n: nat)
    requires |p| > 0 && p[|p| - 1] == '$'
    ensures ReadTrailingInt(p + IntToString(n)) == Some(n)
  {
    var d := NatToString(n);
    ReadAfter(p, d);
    ParseNatToString(n);
  }

  lemma {:induction false} ReadPrintedNeg(p: string, n: int)
    requires |p| > 0 && p[|p| - 1] == '$' && n < 0
    ensures ReadTrailingInt(p + IntToString(n)) == Some(n)
  {
    var m: nat := -n;
    var d := NatToString(m);
    calc {
      ReadTrailingInt(p + IntToString(n));
    == { NegativePrinted(p, n); }
      ReadTrailingInt((p + "-") + d);
    == { ParseNatToString(m); ReadSignedAfterDollar(p, d, m); }
      Some(n);
    }
  }

  /** Digits after "$-" read back as the negated numeral. */
  lemma {:induction false} ReadSignedAfterDollar(p: string, d: string, v: nat)
    requires |p| > 0 && p[|p| - 1] == '$'
    requires |d| >= 1 && AllDigits(d) && ParseNat(d) == v
    ensures ReadTrailingInt((p + "-") + d) == Some(-(v as int))
  {
    ReadAfterMinus(p + "-", d);
  }

  /** A negative number prints as '-' and then the numeral of its size. */
  lemma {:induction false} NegativePrinted(p: string, n: int)
    requires n < 0
    ensures p + IntToString(n) == (p + "-") + NatToString(-n)
  {
  }

  /** Digits after '-' read back as a negative number. */
  lemma {:induction false} ReadAfterMinus(q: string, d: string)
    requires |d| >= 1 && AllDigits(d)
    requires |q| > 0 && q[|q| - 1] == '-'
    ensures ReadTrailingInt(q + d) == Some(-(ParseNat(d) as int))
  {
    ReadAfter(q, d);
  }

  lemma {:induction false} EndsWithDollar(x: string)
    ensures |x + TotalLead| > 0 && (x + TotalLead)[|x + TotalLead| - 1] == '$'
  {
    assert TotalLead[|TotalLead| - 1] == '$';
  }

  /** Reading a message strips the closing and reads what precedes it. */
  lemma {:induction false} ReadBeforeClosing(q: string)
    ensures ReadTotal(q + Closing) == ReadTrailingInt(q)
  {
    var m := q + Closing;
    assert m[|m| - |Closing|..] == Closing;
    assert m[..|m| - |Closing|] == q;
  }

  /** The TOTAL line prints exactly the cart total: reading the message
      back yields `Total(c)`. */
  lemma {:induction false} MessageTotal(c: Cart)
    requires |c| > 0
    ensures ReadTotal(Message(c)) == Some(Total(c))
  {
    var p := Header + Body(c) + TotalLead;
    var q := p + IntToString(Total(c));
    assert Message(c) == q + Closing;
    ReadBeforeClosing(q);
    EndsWithDollar(Header + Body(c));
    ReadPrinted(p, Total(c));
  }
}
