/** The FAQ chat widget of ChatBot.jsx: first-match keyword search over the
    active FAQ list, and the transcript transitions driven by the input box,
    the suggestion buttons and the reset button.  The 500 ms "thinking"
    delay before the bot's reply is taken as an immediate step. */
module ChatBot {
  import opened Text
  import opened Outcomes

  /** A row of the `faq` table, as far as the widget reads it.
      `palabrasClave` is None when the column is null. */
  datatype Faq = Faq(pregunta: string, respuesta: string, palabrasClave: Option<string>)

  /** One transcript entry. */
  datatype Entry = Entry(text: string, isBot: bool)

  /** The widget state: transcript, whether suggestions are offered, and
      the text in the input box. */
  datatype Chat = Chat(messages: seq<Entry>, showSuggestions: bool, input: string)

  const Greeting: Entry :=
    Entry("¡Hola! 👋 Soy tu asistente virtual. ¿En qué puedo ayudarte hoy?", true)

  const Fallback: string :=
    "Lo siento, no tengo una respuesta para esa pregunta. 😅 ¿Puedo ayudarte con algo más?"

  /** The state the widget starts in. */
  const Initial: Chat := Chat([Greeting], true, "")

  // ---------------------------------------------------------------------
  // Keyword matching
  // ---------------------------------------------------------------------

  /** The keyword tokens of a FAQ: none when `palabras_clave` is null or
      empty (both falsy), else the lower-cased text split on commas. */
  function Keywords(f: Faq): (ks: seq<string>)
    ensures f.palabrasClave == None || f.palabrasClave == Some("") ==> ks == []
    ensures f.palabrasClave.Some? && f.palabrasClave.value != "" ==>
              |ks| >= 1 && Join(ks, ',') == Lower(f.palabrasClave.value)
    ensures forall i, j :: 0 <= i < |ks| && 0 <= j < |ks[i]| ==> ks[i][j] != ','
  {
    match f.palabrasClave
    case None => []
    case Some(s) =>
      if s == "" then []
      else JoinSplit(Lower(s), ','); Split(Lower(s), ',')
  }

  /** The contract of `Keywords` pins the tokens down: any comma-free
      tokens that join back to the lower-cased column are exactly them. */
  lemma {:induction false} KeywordsDetermined(f: Faq, ks: seq<string>)
    requires f.palabrasClave.Some? && f.palabrasClave.value != ""
    requires |ks| >= 1 && Join(ks, ',') == Lower(f.palabrasClave.value)
    requires forall i, j :: 0 <= i < |ks| && 0 <= j < |ks[i]| ==> ks[i][j] != ','
    ensures Keywords(f) == ks
  {
    SplitJoin(ks, ',');
  }

  /** Some trimmed keyword of `f` occurs in the lower-cased question. */
  predicate Matches(f: Faq, lowerQuestion: string) {
    var ks := Keywords(f);
    exists i :: 0 <= i < |ks| && Includes(lowerQuestion, Trim(ks[i]))
  }

  /** The position of the first `true`, or |bs| when there is none. */
  function FirstTrue(bs: seq<bool>): (k: nat)
    ensures k <= |bs|
    ensures k < |bs| ==> bs[k]
    ensures forall j :: 0 <= j < k ==> !bs[j]
  {
    if |bs| == 0 then 0
    else if bs[0] then 0
    else
      var k := FirstTrue(bs[1..]);
      assert forall j :: 1 <= j <= k ==> bs[j] == bs[1..][j - 1];
      1 + k
  }

  /** Which FAQs match the lower-cased question, in list order. */
  function Hits(faqs: seq<Faq>, lowerQuestion: string): (hs: seq<bool>)
    ensures |hs| == |faqs|
    ensures forall i :: 0 <= i < |faqs| ==> hs[i] == Matches(faqs[i], lowerQuestion)
  {
    seq(|faqs|, i requires 0 <= i < |faqs| => Matches(faqs[i], lowerQuestion))
  }

  /** The position of the first FAQ that matches, or |faqs| when none
      does. */
  function FirstIndex(faqs: seq<Faq>, lowerQuestion: string): (k: nat)
    ensures k <= |faqs|
    ensures k < |faqs| ==> Matches(faqs[k], lowerQuestion)
    ensures forall j :: 0 <= j < k ==> !Matches(faqs[j], lowerQuestion)
  {
    var hs := Hits(faqs, lowerQuestion);
    var k := FirstTrue(hs);
    assert forall j :: 0 <= j < k ==> !hs[j];
    k
  }

  /** `faqs.find(...)` over the lower-cased question. */
  function FirstMatch(faqs: seq<Faq>, lowerQuestion: string): (r: Option<Faq>)
    ensures r == None <==> forall i :: 0 <= i < |faqs| ==> !Matches(faqs[i], lowerQuestion)
    ensures r.Some? ==> exists k :: 0 <= k < |faqs| && faqs[k] == r.value
                          && Matches(faqs[k], lowerQuestion)
                          && forall j :: 0 <= j < k ==> !Matches(faqs[j], lowerQuestion)
  {
    var k := FirstIndex(faqs, lowerQuestion);
    if k < |faqs| then Some(faqs[k]) else None
  }

  /** `findAnswer`: the first FAQ in list order with a keyword token that
      occurs in the lower-cased question. */
  function FindAnswer(faqs: seq<Faq>, question: string): (r: Option<Faq>)
    ensures r == None <==> forall i :: 0 <= i < |faqs| ==> !Matches(faqs[i], Lower(question))
    ensures r.Some? ==> exists k :: 0 <= k < |faqs| && faqs[k] == r.value
                          && Matches(faqs[k], Lower(question))
                          && forall j :: 0 <= j < k ==> !Matches(faqs[j], Lower(question))
  {
    FirstMatch(faqs, Lower(question))
  }

  /** A FAQ whose keyword column is null or empty never matches. */
  lemma {:induction false} NoKeywordsNeverMatch(f: Faq, question: string)
    requires f.palabrasClave == None || f.palabrasClave == Some("")
    ensures !Matches(f, Lower(question))
  {
  }

  /** Matching ignores letter case: questions with the same lower-case form
      get the same answer, and lower-casing first changes nothing. */
  lemma {:induction false} CaseInsensitive(faqs: seq<Faq>, q1: string, q2: string)
    requires Lower(q1) == Lower(q2)
    ensures FindAnswer(faqs, q1) == FindAnswer(faqs, q2)
    ensures FindAnswer(faqs, Lower(q1)) == FindAnswer(faqs, q1)
  {
    LowerIdempotent(q1);
  }

  /** A keyword token that is blank after trimming (a trailing comma, say)
      occurs in every question, so its FAQ matches everything. */
  lemma {:induction false} BlankTokenMatchesAll(f: Faq, question: string)
    requires exists i :: 0 <= i < |Keywords(f)| && AllSpace(Keywords(f)[i])
    ensures Matches(f, Lower(question))
  {
    var i :| 0 <= i < |Keywords(f)| && AllSpace(Keywords(f)[i]);
    IncludesEmpty(Lower(question));
    assert Includes(Lower(question), Trim(Keywords(f)[i]));
  }

  /** With a trailing comma in its keywords, a FAQ matches any question. */
  lemma {:induction false} TrailingCommaMatchesAll(pregunta: string, respuesta: string, kw: string, question: string)
    ensures Matches(Faq(pregunta, respuesta, Some(kw + ",")), Lower(question))
  {
    var f := Faq(pregunta, respuesta, Some(kw + ","));
    assert Lower(kw + ",") == Lower(kw) + [','];
    SplitTrailingSeparator(Lower(kw), ',');
    var ks := Keywords(f);
    assert AllSpace(ks[|ks| - 1]);
    BlankTokenMatchesAll(f, question);
  }

  // ---------------------------------------------------------------------
  // Transcript transitions
  // ---------------------------------------------------------------------

  /** The bot's reply to a question: the matched answer or the fallback. */
  function Reply(faqs: seq<Faq>, question: string): (text: string)
    ensures FindAnswer(faqs, question).Some? ==> text == FindAnswer(faqs, question).value.respuesta
    ensures FindAnswer(faqs, question).None? ==> text == Fallback
  {
    match FindAnswer(faqs, question)
    case Some(f) => f.respuesta
    case None => Fallback
  }

  /** `handleSendMessage`: a blank input changes nothing; otherwise the
      input is appended verbatim as a user entry, then the reply as a bot
      entry, the suggestions are hidden and the input box is cleared. */
  function SendMessage(st: Chat, faqs: seq<Faq>): (r: Chat)
    ensures AllSpace(st.input) ==> r == st
    ensures !AllSpace(st.input) ==>
              && |r.messages| == |st.messages| + 2
              && r.messages[..|st.messages|] == st.messages
              && r.messages[|st.messages|] == Entry(st.input, false)
              && r.messages[|st.messages| + 1] == Entry(Reply(faqs, st.input), true)
              && !r.showSuggestions && r.input == ""
  {
    if Trim(st.input) == "" then st
    else
      Chat(st.messages + [Entry(st.input, false), Entry(Reply(faqs, st.input), true)], false, "")
  }

  /** `handleSuggestionClick`: the FAQ's question as a user entry, then its
      answer as a bot entry; the suggestions are hidden. */
  function SuggestionClick(st: Chat, f: Faq): (r: Chat)
    ensures r.messages == st.messages + [Entry(f.pregunta, false), Entry(f.respuesta, true)]
    ensures !r.showSuggestions && r.input == st.input
  {
    st.(messages := st.messages + [Entry(f.pregunta, false), Entry(f.respuesta, true)],
        showSuggestions := false)
  }

  /** `resetChat`: back to the greeting alone, suggestions offered again;
      the input box keeps its text. */
  function ResetChat(st: Chat): (r: Chat)
    ensures r.messages == [Greeting] && r.showSuggestions
    ensures r.input == st.input
  {
    Chat([Greeting], true, st.input)
  }

  /** The suggestion buttons shown: the first four FAQs, while suggestions
      are offered and there is at least one FAQ. */
  function Suggestions(st: Chat, faqs: seq<Faq>): (s: seq<Faq>)
    ensures |s| <= 4
    ensures !st.showSuggestions ==> s == []
    ensures st.showSuggestions ==> s == faqs[..if |faqs| < 4 then |faqs| else 4]
  {
    if st.showSuggestions && |faqs| > 0 then faqs[..if |faqs| < 4 then |faqs| else 4] else []
  }

  // ---------------------------------------------------------------------
  // The transcript invariant
  // ---------------------------------------------------------------------

  /** The transcript opens with the greeting and then alternates user and
      bot entries, ending with a bot entry. */
  predicate WellFormed(m: seq<Entry>) {
    && |m| % 2 == 1
    && m[0] == Greeting
    && forall i :: 0 < i < |m| ==> m[i].isBot == (i % 2 == 0)
  }

  lemma {:induction false} InitialWellFormed()
    ensures WellFormed(Initial.messages)
  {
  }

  /** Appending a user entry then a bot entry keeps the shape. */
  lemma {:induction false} AppendPairWellFormed(m: seq<Entry>, u: Entry, b: Entry)
    requires WellFormed(m) && !u.isBot && b.isBot
    ensures WellFormed(m + [u, b])
  {
    var r := m + [u, b];
    assert r[0] == m[0];
    forall i | 0 < i < |r| ensures r[i].isBot == (i % 2 == 0) {
      if i < |m| {
        assert r[i] == m[i];
      } else if i == |m| {
        assert r[i] == u;
      } else {
        assert r[i] == b;
      }
    }
  }

  /** Every transition keeps the transcript well formed. */
  lemma {:induction false} TransitionsWellFormed(st: Chat, faqs: seq<Faq>, f: Faq)
    requires WellFormed(st.messages)
    ensures WellFormed(SendMessage(st, faqs).messages)
    ensures WellFormed(SuggestionClick(st, f).messages)
    ensures WellFormed(ResetChat(st).messages)
  {
    if Trim(st.input) != "" {
      AppendPairWellFormed(st.messages, Entry(st.input, false), Entry(Reply(faqs, st.input), true));
    }
    AppendPairWellFormed(st.messages, Entry(f.pregunta, false), Entry(f.respuesta, true));
  }

  /** Resetting after any sequence of steps gives back the initial
      transcript and suggestions. */
  lemma {:induction false} ResetRestores(st: Chat)
    ensures ResetChat(st) == Initial.(input := st.input)
  {
  }

  // ---------------------------------------------------------------------
  // A worked example
  // ---------------------------------------------------------------------

  /** A needle whose first character never appears in the haystack does
      not occur in it. */
  lemma {:induction false} FirstCharAbsent(hay: string, needle: string)
    requires |needle| > 0 && needle[0] !in hay
    ensures !Includes(hay, needle)
    decreases |hay|
  {
    if |hay| > 0 {
      assert hay[0] != needle[0];
      assert forall c :: c in hay[1..] ==> c in hay;
      FirstCharAbsent(hay[1..], needle);
    }
  }

  /** A token without surrounding white space is its own trim. */
  lemma {:induction false} TrimNoSpace(s: string)
    requires |s| > 0 && !IsSpace(s[0]) && !IsSpace(s[|s| - 1])
    ensures Trim(s) == s
  {
  }

  /** Two comma-separated lower-case words split into those words. */
  lemma {:induction false} TwoWords(a: string, b: string)
    requires a != "" && ',' !in a && ',' !in b
    requires forall i :: 0 <= i < |a| ==> 'a' <= a[i] <= 'z'
    requires forall i :: 0 <= i < |b| ==> 'a' <= b[i] <= 'z'
    ensures Lower(a + "," + b) == a + "," + b
    ensures Split(a + "," + b, ',') == [a, b]
  {
    LowerNoUpper(a + "," + b);
    SplitAtFirst(a, b, ',');
    SplitNoSeparator(b, ',');
  }

  const HoursFaq: Faq := Faq("Horario", "De 12 a 23", Some("horario,hora"))
  const PriceFaq: Faq := Faq("Precios", "Ver menú", Some("precio,costo"))

  lemma {:induction false} HoursFaqKeywords()
    ensures Keywords(HoursFaq) == ["horario", "hora"]
  {
    TwoWords("horario", "hora");
    assert "horario" + "," + "hora" == "horario,hora";
  }

  lemma {:induction false} PriceFaqKeywords()
    ensures Keywords(PriceFaq) == ["precio", "costo"]
  {
    TwoWords("precio", "costo");
    assert "precio" + "," + "costo" == "precio,costo";
  }

  lemma {:induction false} HorarioOccurs()
    ensures Includes("cual es el horario", "horario")
  {
    assert OccursAt("cual es el horario", "horario", 11);
    IncludesIff("cual es el horario", "horario");
  }

  /** A non-empty word of lower-case letters only. */
  predicate LowerWord(w: string) {
    |w| > 0 && forall i :: 0 <= i < |w| ==> 'a' <= w[i] <= 'z'
  }

  /** A non-empty lower-case word is its own trim. */
  lemma {:induction false} TrimWord(w: string)
    requires LowerWord(w)
    ensures Trim(w) == w
  {
    TrimNoSpace(w);
  }

  /** A FAQ whose two tokens are plain words, neither starting with a
      letter that appears in the question, does not match it. */
  lemma {:induction false} TwoWordsAbsent(f: Faq, q: string, w1: string, w2: string)
    requires Keywords(f) == [w1, w2] && LowerWord(w1) && LowerWord(w2)
    requires w1[0] !in q && w2[0] !in q
    ensures !Matches(f, q)
  {
    TrimWord(w1);
    TrimWord(w2);
    FirstCharAbsent(q, w1);
    FirstCharAbsent(q, w2);
  }

  /** A FAQ whose first token is a plain word occurring in the question
      matches it. */
  lemma {:induction false} FirstWordPresent(f: Faq, q: string, w1: string, w2: string)
    requires Keywords(f) == [w1, w2] && LowerWord(w1) && Includes(q, w1)
    ensures Matches(f, q)
  {
    TrimWord(w1);
    assert Includes(q, Trim(Keywords(f)[0]));
  }

  /** The two FAQs of the example: opening hours with the tokens
      "horario,hora" and prices with "precio,costo". */
  predicate ExampleFaqs(hours: Faq, price: Faq) {
    Keywords(hours) == ["horario", "hora"] && Keywords(price) == ["precio", "costo"]
  }

  lemma {:induction false} ExampleFaqsHold()
    ensures ExampleFaqs(HoursFaq, PriceFaq)
  {
    HoursFaqKeywords();
    PriceFaqKeywords();
  }

  /** Any question that mentions "horario", in any letter case, is
      answered by the hours FAQ. */
  lemma {:induction false} ScenarioHoursMatch(hours: Faq, price: Faq, question: string)
    requires ExampleFaqs(hours, price) && Includes(Lower(question), "horario")
    ensures FindAnswer([hours, price], question) == Some(hours)
  {
    FirstWordPresent(hours, Lower(question), "horario", "hora");
  }

  /** A question in which none of the letters h, p and c appears shares no
      keyword with either FAQ, so the bot answers with the fallback text. */
  lemma {:induction false} ScenarioNoMatch(hours: Faq, price: Faq, question: string)
    requires ExampleFaqs(hours, price)
    requires 'h' !in Lower(question) && 'p' !in Lower(question) && 'c' !in Lower(question)
    ensures FindAnswer([hours, price], question) == None
    ensures Reply([hours, price], question) == Fallback
  {
    var q := Lower(question);
    HoursFaqMisses(hours, q);
    PriceFaqMisses(price, q);
    var faqs := [hours, price];
    assert forall i :: 0 <= i < |faqs| ==> !Matches(faqs[i], q);
  }

  lemma {:induction false} HoursFaqMisses(hours: Faq, q: string)
    requires Keywords(hours) == ["horario", "hora"] && 'h' !in q
    ensures !Matches(hours, q)
  {
    TwoWordsAbsent(hours, q, "horario", "hora");
  }

  lemma {:induction false} PriceFaqMisses(price: Faq, q: string)
    requires Keywords(price) == ["precio", "costo"] && 'p' !in q && 'c' !in q
    ensures !Matches(price, q)
  {
    TwoWordsAbsent(price, q, "precio", "costo");
  }

  /** The example question about opening hours falls under the first
      case. */
  lemma {:induction false} HoursQuestion()
    ensures Includes(Lower("Cual es el horario"), "horario")
  {
    LowerOfQuestion();
    HorarioOccurs();
  }

  lemma {:induction false} LowerOfQuestion()
    ensures Lower("Cual es el horario") == "cual es el horario"
  {
  }

  /** The example question "no entiendo nada" falls under the second. */
  lemma {:induction false} UnrelatedQuestion()
    ensures var q := Lower("no entiendo nada"); 'h' !in q && 'p' !in q && 'c' !in q
  {
    LowerNoUpper("no entiendo nada");
  }
}
