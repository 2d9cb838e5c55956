/** The command-line word parser of cli.lua. */
module CliWords {
  import opened Words

  const QUOTE := '"'
  const APOSTROPHE := '\''
  const BACKSLASH := '\\'

  /** The pattern [%c%s] in the C locale. */
  predicate IsSpace(c: char) {
    c as int <= 32 || c as int == 127
  }

  /** What is no space: the printable characters from ! on, and whatever is not ASCII. */
  lemma NoSpaces(c: char)
    ensures !IsSpace(c) <==> '!' <= c <= '~' || c as int >= 0x80
  {
  }

  predicate AllSpace(s: string) {
    forall k :: 0 <= k < |s| ==> IsSpace(s[k])
  }

  /** argparser:trimspace */
  function Trimmed(s: string): (r: string)
    ensures |r| <= |s| && (r != "" ==> !IsSpace(r[0]))
  {
    if s != "" && IsSpace(s[0]) then Trimmed(s[1..]) else s
  }

  /** The variables of get_word: the word so far, and whether an escape or a quote is open. */
  datatype State = State(word: string, esc: bool, quote: Option<char>)

  const START := State("", false, None)

  /** One character; None means that the word ends before it. */
  function Next(st: State, c: char): Option<State> {
    if st.esc then Some(State(st.word + [c], false, st.quote))
    else if st.quote == Some(QUOTE) && c == BACKSLASH then Some(st.(esc := true))
    else if st.quote == Some(c) then Some(st.(quote := None))
    else if st.quote == None && IsSpace(c) then None
    else if st.quote == None && (c == QUOTE || c == APOSTROPHE) then Some(st.(quote := Some(c)))
    else Some(st.(word := st.word + [c]))
  }

  /** The state in which a word ends, and the number of characters it takes. */
  function Scan(s: string, st: State): (r: (State, nat))
    ensures r.1 <= |s|
  {
    if s == "" || Next(st, s[0]).None? then (st, 0)
    else
      var r := Scan(s[1..], Next(st, s[0]).value);
      (r.0, r.1 + 1)
  }

  datatype WordResult = Word(word: string, pos: nat) | UnexpectedBackslash | Unclosed(quote: char)

  function WordOf(s: string): (r: WordResult)
    ensures r.Word? ==> 1 <= r.pos <= |s| + 1
  {
    var r := Scan(s, START);
    if r.0.esc then UnexpectedBackslash
    else if r.0.quote.Some? then Unclosed(r.0.quote.value)
    else Word(r.0.word, r.1 + 1)
  }

  datatype WordsResult = Parsed(words: seq<string>) | Failed(error: WordResult)

  /** A word takes at least one character of a line that does not start with a space. */
  lemma WordTakes(s: string)
    requires s != "" && !IsSpace(s[0]) && WordOf(s).Word?
    ensures WordOf(s).pos >= 2
  {
    assert Next(START, s[0]).Some?;
  }

  function WordsOf(line: string): WordsResult
    decreases |line|
  {
    var s := Trimmed(line);
    if s == "" then Parsed([])
    else
      var w := WordOf(s);
      if !w.Word? then Failed(w)
      else
        WordTakes(s);
        Before(w.word, WordsOf(s[w.pos - 1..]))
  }

  /** The words of a line are its first word and those of the rest. */
  lemma WordsStep(line: string, s: string)
    requires s == Trimmed(line)
    ensures s == "" ==> WordsOf(line) == Parsed([])
    ensures s != "" && !WordOf(s).Word? ==> WordsOf(line) == Failed(WordOf(s))
    ensures s != "" && WordOf(s).Word? ==> WordsOf(line) == Before(WordOf(s).word, WordsOf(s[WordOf(s).pos - 1..]))
  {
    hide WordOf;
  }

  function Before(word: string, more: WordsResult): WordsResult {
    if more.Failed? then more else Parsed([word] + more.words)
  }

  method TrimSpace(s: string) returns (r: string)
    ensures r == Trimmed(s)
  {
    var e := 0;
    while e < |s| && IsSpace(s[e])
      invariant e <= |s| && Trimmed(s) == Trimmed(s[e..])
    {
      e := e + 1;
    }
    r := s[e..];
  }

  /** argparser:get_word; positions count from 1. */
  method GetWord(s: string) returns (r: WordResult)
    ensures r == WordOf(s)
  {
    var result, esc, qchar: Option<char>, pos := "", false, None, 1;
    while pos <= |s|
      invariant 1 <= pos <= |s| + 1
      invariant Scan(s, START).0 == Scan(s[pos - 1..], State(result, esc, qchar)).0
      invariant Scan(s, START).1 == pos - 1 + Scan(s[pos - 1..], State(result, esc, qchar)).1
    {
      var c := s[pos - 1];
      assert s[pos - 1..][0] == c && s[pos - 1..][1..] == s[pos..];
      if esc {
        result := result + [c];
        esc := false;
      } else if qchar == Some(QUOTE) && c == BACKSLASH {
        esc := true;
      } else if qchar == Some(c) {
        qchar := None;
      } else if qchar == None && IsSpace(c) {
        break;
      } else if qchar == None && (c == QUOTE || c == APOSTROPHE) {
        qchar := Some(c);
      } else {
        result := result + [c];
      }
      pos := pos + 1;
    }
    if esc {
      return UnexpectedBackslash;
    }
    if qchar.Some? {
      return Unclosed(qchar.value);
    }
    return Word(result, pos);
  }

  /** argparser:parse_words; every round makes the rest of the line shorter. */
  method ParseWords(line: string) returns (r: WordsResult)
    ensures r == WordsOf(line)
  {
    hide WordsOf, WordOf, Trimmed;
    var words: seq<string> := [];
    var str := TrimSpace(line);
    TrimmedTwice(line);
    assert After([], WordsOf(line)) == WordsOf(line) by { AfterNone(WordsOf(line)); }
    while |str| > 0
      invariant Trimmed(str) == str && WordsOf(line) == After(words, WordsOf(str))
      decreases |str|
    {
      WordsStep(str, str);
      var w := GetWord(str);
      if !w.Word? {
        return Failed(w);
      }
      WordTakes(str);
      var rest := str[w.pos - 1..];
      TrimmedTwice(rest);
      AfterOne(words, w.word, WordsOf(rest));
      words := words + [w.word];
      str := TrimSpace(rest);
    }
    WordsStep(str, str);
    return Parsed(words);
  }

  /** The words of a line of which some have been parsed already. */
  function After(words: seq<string>, more: WordsResult): WordsResult {
    if more.Failed? then more else Parsed(words + more.words)
  }

  lemma AfterNone(more: WordsResult)
    ensures After([], more) == more
  {
  }

  lemma AfterOne(words: seq<string>, w: string, more: WordsResult)
    ensures After(words, Before(w, more)) == After(words + [w], more)
  {
    if more.Parsed? {
      assert words + ([w] + more.words) == words + [w] + more.words;
    }
  }

  lemma {:induction false} TrimmedTwice(s: string)
    ensures Trimmed(Trimmed(s)) == Trimmed(s) && WordsOf(Trimmed(s)) == WordsOf(s)
  {
    if s != "" && IsSpace(s[0]) {
      TrimmedTwice(s[1..]);
    }
  }

  // The words that can be written

  /** A character between quotes: with a backslash before it or as it is. */
  datatype Item = Item(c: char, escaped: bool)

  /** A word is a row of pieces without a gap: single characters, and texts between quotes. */
  datatype Piece = Plain(c: char) | Quoted(quote: char, items: seq<Item>)

  /**
   Between quotation marks any character may follow a backslash, and needs one if it is a quotation
   mark or a backslash itself. Between apostrophes a backslash is a character like any other.
   */
  predicate ItemFits(quote: char, i: Item) {
    if quote == QUOTE then i.escaped || (i.c != QUOTE && i.c != BACKSLASH) else !i.escaped && i.c != APOSTROPHE
  }

  predicate ItemsFit(quote: char, items: seq<Item>) {
    forall i :: i in items ==> ItemFits(quote, i)
  }

  predicate Fits(p: Piece) {
    match p
    case Plain(c) => !IsSpace(c) && c != QUOTE && c != APOSTROPHE
    case Quoted(quote, items) => (quote == QUOTE || quote == APOSTROPHE) && ItemsFit(quote, items)
  }

  predicate AllFit(ps: seq<Piece>) {
    forall p :: p in ps ==> Fits(p)
  }

  /** How pieces are written. */
  function Spelled(ps: seq<Piece>): string {
    if ps == [] then ""
    else (match ps[0]
          case Plain(c) => [c]
          case Quoted(quote, items) => [quote] + SpelledItems(items) + [quote]) + Spelled(ps[1..])
  }

  function SpelledItems(items: seq<Item>): string {
    if items == [] then ""
    else (if items[0].escaped then [BACKSLASH, items[0].c] else [items[0].c]) + SpelledItems(items[1..])
  }

  /** What they mean: their characters without the quotes and the backslashes before characters. */
  function Meant(ps: seq<Piece>): string {
    if ps == [] then ""
    else (match ps[0]
          case Plain(c) => [c]
          case Quoted(_, items) => MeantItems(items)) + Meant(ps[1..])
  }

  function MeantItems(items: seq<Item>): string {
    seq(|items|, i requires 0 <= i < |items| => items[i].c)
  }

  /** What stands in a line that is read in some state: the rest of a quoted text, if one is open, and pieces. */
  function Ahead(st: State, items: seq<Item>, ps: seq<Piece>): string
    requires st.esc ==> items != []
  {
    if st.quote.None? then Spelled(ps)
    else
      var rest := if st.esc then [items[0].c] + SpelledItems(items[1..]) else SpelledItems(items);
      rest + [st.quote.value] + Spelled(ps)
  }

  /** The state is one that reading a word comes to. */
  predicate Open(st: State) {
    && (st.esc ==> st.quote == Some(QUOTE))
    && (st.quote.Some? ==> st.quote.value == QUOTE || st.quote.value == APOSTROPHE)
  }

  /** The rest of the quoted text and the pieces are as they may be in the state. */
  predicate Possible(st: State, items: seq<Item>, ps: seq<Piece>) {
    && AllFit(ps) && (st.quote.None? ==> items == []) && (st.quote.Some? ==> ItemsFit(st.quote.value, items))
    && (st.esc ==> items != [] && items[0].escaped)
  }

  /** The whole word, of which some has been read. */
  function Sense(st: State, items: seq<Item>, ps: seq<Piece>): string {
    st.word + MeantItems(items) + Meant(ps)
  }

  lemma PieceInFront(p: Piece, ps: seq<Piece>)
    ensures Spelled([p] + ps)
            == (if p.Plain? then [p.c] else [p.quote] + SpelledItems(p.items) + [p.quote]) + Spelled(ps)
    ensures Meant([p] + ps) == (if p.Plain? then [p.c] else MeantItems(p.items)) + Meant(ps)
    ensures AllFit([p] + ps) <==> Fits(p) && AllFit(ps)
  {
    hide Fits;
    assert ([p] + ps)[1..] == ps;
    assert p in [p] + ps;
    assert forall q :: q in ps ==> q in [p] + ps;
  }

  lemma ItemInFront(i: Item, items: seq<Item>)
    ensures SpelledItems([i] + items) == (if i.escaped then [BACKSLASH, i.c] else [i.c]) + SpelledItems(items)
    ensures MeantItems([i] + items) == [i.c] + MeantItems(items)
    ensures forall q :: ItemsFit(q, [i] + items) <==> ItemFits(q, i) && ItemsFit(q, items)
  {
    hide ItemFits;
    assert ([i] + items)[1..] == items;
    assert i in [i] + items;
    assert forall k :: k in items ==> k in [i] + items;
  }

  /** Reading the character c in state st leads to state on, and leaves the rest of what stood ahead. */
  ghost predicate Leads(st: State, items: seq<Item>, ps: seq<Piece>, c: char, on: State, items1: seq<Item>,
                        ps1: seq<Piece>) {
    && Next(st, c) == Some(on) && Open(on) && (Possible(st, items, ps) <==> Possible(on, items1, ps1))
    && (Possible(st, items, ps) ==>
          Ahead(st, items, ps) == [c] + Ahead(on, items1, ps1) && Sense(st, items, ps) == Sense(on, items1, ps1))
  }

  lemma LeadsPlain(st: State, c: char, ps: seq<Piece>)
    requires Open(st) && st.quote.None? && Fits(Plain(c))
    ensures Leads(st, [], [Plain(c)] + ps, c, st.(word := st.word + [c]), [], ps)
  {
    hide Spelled, Meant, IsSpace;
    PieceInFront(Plain(c), ps);
  }

  lemma LeadsOpen(st: State, c: char, items: seq<Item>, ps: seq<Piece>)
    requires Open(st) && st.quote.None? && (c == QUOTE || c == APOSTROPHE)
    ensures Leads(st, [], [Quoted(c, items)] + ps, c, st.(quote := Some(c)), items, ps)
  {
    hide Spelled, Meant, SpelledItems, MeantItems, ItemsFit;
    PieceInFront(Quoted(c, items), ps);
    NoItems();
  }

  lemma NoItems()
    ensures MeantItems([]) == "" && SpelledItems([]) == "" && forall q :: ItemsFit(q, [])
  {
  }

  lemma LeadsClose(st: State, ps: seq<Piece>)
    requires Open(st) && !st.esc && st.quote.Some?
    ensures Leads(st, [], ps, st.quote.value, st.(quote := None), [], ps)
  {
    hide Spelled, Meant, SpelledItems, MeantItems, ItemsFit;
    NoItems();
  }

  lemma LeadsEscape(st: State, items: seq<Item>, ps: seq<Piece>)
    requires Open(st) && !st.esc && st.quote == Some(QUOTE) && items != [] && items[0].escaped
    ensures Leads(st, items, ps, BACKSLASH, st.(esc := true), items, ps)
  {
    hide Spelled, Meant, SpelledItems, MeantItems, ItemsFit;
    ItemInFront(items[0], items[1..]);
    assert [items[0]] + items[1..] == items;
  }

  lemma LeadsItem(st: State, i: Item, items: seq<Item>, ps: seq<Piece>)
    requires Open(st) && st.quote.Some? && ItemFits(st.quote.value, i) && i.escaped == st.esc
    ensures Leads(st, [i] + items, ps, i.c, State(st.word + [i.c], false, st.quote), items, ps)
  {
    hide Spelled, Meant, SpelledItems, MeantItems, ItemsFit, ItemFits, AllFit, Next, Ahead, Sense;
    ItemInFront(i, items);
    ItemNext(st, i);
    ItemAhead(st, i, items, ps);
    ItemSense(st, i, items, ps);
  }

  lemma ItemNext(st: State, i: Item)
    requires Open(st) && st.quote.Some? && ItemFits(st.quote.value, i) && i.escaped == st.esc
    ensures Next(st, i.c) == Some(State(st.word + [i.c], false, st.quote))
  {
  }

  lemma ItemAhead(st: State, i: Item, items: seq<Item>, ps: seq<Piece>)
    requires st.quote.Some? && i.escaped == st.esc
    ensures Ahead(st, [i] + items, ps) == [i.c] + Ahead(State(st.word + [i.c], false, st.quote), items, ps)
  {
    hide Spelled, SpelledItems;
    ItemInFront(i, items);
    assert ([i] + items)[1..] == items;
  }

  lemma ItemSense(st: State, i: Item, items: seq<Item>, ps: seq<Piece>)
    ensures Sense(st, [i] + items, ps) == Sense(State(st.word + [i.c], false, st.quote), items, ps)
  {
    hide Meant, MeantItems;
    ItemInFront(i, items);
  }

  /** What stands ahead begins with a character that leads on. */
  lemma AheadStep(st: State, items: seq<Item>, ps: seq<Piece>)
    returns (c: char, on: State, items1: seq<Item>, ps1: seq<Piece>)
    requires Open(st) && Possible(st, items, ps) && (st.quote.None? ==> ps != [])
    ensures Leads(st, items, ps, c, on, items1, ps1)
  {
    hide Leads, Spelled, Meant, SpelledItems, MeantItems, IsSpace;
    if st.quote.None? {
      assert [ps[0]] + ps[1..] == ps;
      assert Fits(ps[0]);
      if ps[0].Plain? {
        c, on, items1, ps1 := ps[0].c, st.(word := st.word + [ps[0].c]), [], ps[1..];
        LeadsPlain(st, c, ps1);
      } else {
        c, on, items1, ps1 := ps[0].quote, st.(quote := Some(ps[0].quote)), ps[0].items, ps[1..];
        LeadsOpen(st, c, items1, ps1);
      }
    } else if items == [] {
      c, on, items1, ps1 := st.quote.value, st.(quote := None), [], ps;
      LeadsClose(st, ps);
    } else {
      assert [items[0]] + items[1..] == items;
      assert ItemFits(st.quote.value, items[0]);
      if st.esc || !items[0].escaped {
        c, on, items1, ps1 := items[0].c, State(st.word + [items[0].c], false, st.quote), items[1..], ps;
        LeadsItem(st, items[0], items1, ps);
      } else {
        c, on, items1, ps1 := BACKSLASH, st.(esc := true), items, ps;
        LeadsEscape(st, items, ps);
      }
    }
  }

  /** A character that a word takes is the first of something that may stand ahead. */
  lemma AheadBefore(st: State, c: char, items1: seq<Item>, ps1: seq<Piece>) returns (items: seq<Item>, ps: seq<Piece>)
    requires Open(st) && Next(st, c).Some? && Possible(Next(st, c).value, items1, ps1)
    ensures Leads(st, items, ps, c, Next(st, c).value, items1, ps1)
  {
    hide Leads, Spelled, Meant, SpelledItems, MeantItems, IsSpace;
    items, ps := items1, ps1;
    if st.esc {
      items := [Item(c, true)] + items1;
      LeadsItem(st, Item(c, true), items1, ps1);
    } else if st.quote == Some(QUOTE) && c == BACKSLASH {
      LeadsEscape(st, items, ps);
    } else if st.quote == Some(c) {
      items := [];
      LeadsClose(st, ps);
    } else if st.quote.Some? {
      items := [Item(c, false)] + items1;
      LeadsItem(st, Item(c, false), items1, ps1);
    } else if c == QUOTE || c == APOSTROPHE {
      items, ps := [], [Quoted(c, items1)] + ps1;
      LeadsOpen(st, c, items1, ps1);
    } else {
      items, ps := [], [Plain(c)] + ps1;
      LeadsPlain(st, c, ps1);
    }
  }

  /** What may stand ahead is read to its end and as what it means. */
  lemma {:induction false} ScanAhead(st: State, items: seq<Item>, ps: seq<Piece>, tail: string)
    requires Open(st) && Possible(st, items, ps) && (tail == "" || IsSpace(tail[0]))
    ensures Scan(Ahead(st, items, ps) + tail, st) == (State(Sense(st, items, ps), false, None), |Ahead(st, items, ps)|)
    decreases |Ahead(st, items, ps)|
  {
    hide Scan, Next, Ahead, Sense, IsSpace, Possible;
    if st.quote.None? && ps == [] {
      NothingAhead(st, items);
      WordEnds(st.word, tail);
      assert "" + tail == tail;
    } else {
      var c, on, items1, ps1 := AheadStep(st, items, ps);
      ScanAhead(on, items1, ps1, tail);
      LeadsOn(st, items, ps, c, on, items1, ps1);
      var rest := Ahead(on, items1, ps1);
      assert [c] + rest + tail == [c] + (rest + tail);
      ScanOne(c, rest + tail, st, on);
    }
  }

  lemma LeadsOn(st: State, items: seq<Item>, ps: seq<Piece>, c: char, on: State, items1: seq<Item>, ps1: seq<Piece>)
    requires Leads(st, items, ps, c, on, items1, ps1) && Possible(st, items, ps)
    ensures Possible(on, items1, ps1) && (on.esc ==> items1 != [])
  {
    hide AllFit, ItemsFit, Ahead, Sense;
  }

  lemma NothingAhead(st: State, items: seq<Item>)
    requires st.quote.None? && Open(st)
    ensures Possible(st, items, []) ==> items == [] && Ahead(st, items, []) == "" && Sense(st, items, []) == st.word
    ensures Possible(st, [], [])
  {
  }

  /** What has been read as a word stood ahead in this way, and it ends before a space or with the line. */
  lemma {:induction false} ScanStood(s: string, st: State) returns (items: seq<Item>, ps: seq<Piece>)
    requires Open(st) && !Scan(s, st).0.esc && Scan(s, st).0.quote.None?
    ensures var (end, n) := Scan(s, st);
            && Possible(st, items, ps) && s[..n] == Ahead(st, items, ps) && end.word == Sense(st, items, ps)
            && (n == |s| || IsSpace(s[n]))
  {
    hide Ahead, Sense, IsSpace, Possible;
    items, ps := [], [];
    if s == "" || Next(st, s[0]).None? {
      NothingAhead(st, []);
    } else {
      var on := Next(st, s[0]).value;
      var n := Scan(s[1..], on).1;
      items, ps := ScanStood(s[1..], on);
      assert s[..n + 1] == [s[0]] + s[1..][..n];
      assert n < |s| - 1 ==> s[1..][n] == s[n + 1];
      items, ps := AheadBefore(st, s[0], items, ps);
    }
  }

  /**
   The front of a line is read as a word if and only if it is made of pieces and ends before a space or with
   the line. The pieces say what the word means.
   */
  lemma WordIsPieces(s: string, w: string, pos: nat)
    requires 1 <= pos <= |s| + 1
    ensures WordOf(s) == Word(w, pos)
            <==> && (pos == |s| + 1 || IsSpace(s[pos - 1]))
                 && exists ps :: AllFit(ps) && Spelled(ps) == s[..pos - 1] && Meant(ps) == w
  {
    hide Scan, IsSpace, AllFit, Spelled, Meant;
    if WordOf(s) == Word(w, pos) {
      var items, ps := ScanStood(s, START);
      NoItems();
      assert "" + "" + Meant(ps) == Meant(ps);
      assert AllFit(ps) && Spelled(ps) == s[..pos - 1] && Meant(ps) == w;
    }
    if (pos == |s| + 1 || IsSpace(s[pos - 1]))
       && exists ps :: AllFit(ps) && Spelled(ps) == s[..pos - 1] && Meant(ps) == w {
      var ps :| AllFit(ps) && Spelled(ps) == s[..pos - 1] && Meant(ps) == w;
      NoItems();
      assert "" + "" + Meant(ps) == Meant(ps);
      ScanAhead(START, [], ps, s[pos - 1..]);
      assert s[..pos - 1] + s[pos - 1..] == s;
    }
  }

  /** A word that stays open is read to the end of the line, and reading goes on there if the line does. */
  lemma {:induction false} ScanGoesOn(s: string, st: State, t: string)
    requires Open(st) && Scan(s, st).0.quote.Some?
    ensures Open(Scan(s, st).0) && Scan(s, st).1 == |s|
    ensures var (on, n) := Scan(s, st); Scan(s + t, st) == (Scan(t, on).0, |s| + Scan(t, on).1)
  {
    hide IsSpace;
    if s == "" {
      assert s + t == t;
    } else {
      assert (s + t)[0] == s[0] && (s + t)[1..] == s[1..] + t;
      ScanGoesOn(s[1..], Next(st, s[0]).value, t);
    }
  }

  /**
   What an error says is what is missing: the quote that it names makes the line a word, and so do any
   character after the backslash and a quotation mark.
   */
  lemma ErrorsMended(s: string, c: char)
    ensures WordOf(s).Unclosed? ==>
              WordOf(s + [WordOf(s).quote]) == Word(Scan(s, START).0.word, |s| + 2)
    ensures WordOf(s).UnexpectedBackslash? ==> WordOf(s + [c, QUOTE]) == Word(Scan(s, START).0.word + [c], |s| + 3)
  {
    hide IsSpace, Scan, Next;
    var on := Scan(s, START).0;
    EscapedIsQuoted(s, START);
    if on.esc {
      ScanGoesOn(s, START, [c, QUOTE]);
      assert [c] + [QUOTE] == [c, QUOTE];
      CharacterRead(on, c, [QUOTE]);
      QuoteCloses(State(on.word + [c], false, on.quote));
    } else if on.quote.Some? {
      ScanGoesOn(s, START, [on.quote.value]);
      QuoteCloses(on);
    }
  }

  lemma CharacterRead(st: State, c: char, rest: string)
    requires st.esc
    ensures var r := Scan(rest, State(st.word + [c], false, st.quote)); Scan([c] + rest, st) == (r.0, r.1 + 1)
  {
    hide Scan;
    ScanOne(c, rest, st, State(st.word + [c], false, st.quote));
  }

  lemma QuoteCloses(st: State)
    requires Open(st) && !st.esc && st.quote.Some?
    ensures Scan([st.quote.value], st) == (State(st.word, false, None), 1)
  {
    ScanOne(st.quote.value, "", st, st.(quote := None));
    assert [st.quote.value] + "" == [st.quote.value];
  }

  lemma {:induction false} EscapedIsQuoted(s: string, st: State)
    requires Open(st)
    ensures Open(Scan(s, st).0)
  {
    hide IsSpace;
    if s != "" && Next(st, s[0]).Some? {
      EscapedIsQuoted(s[1..], Next(st, s[0]).value);
    }
  }

  // Printing

  /** The three ways to write a word. */
  datatype Style = Bare | Single | Double

  /** A bare word is not empty and has no spaces or quotes in it; a single-quoted one has no apostrophe. */
  predicate CanWrite(style: Style, w: string) {
    match style
    case Bare => w != "" && forall k :: 0 <= k < |w| ==> !IsSpace(w[k]) && w[k] != QUOTE && w[k] != APOSTROPHE
    case Single => APOSTROPHE !in w
    case Double => true
  }

  /** A backslash in front of every quote and backslash. */
  function Escaped(w: string): string {
    if w == "" then ""
    else (if w[0] == QUOTE || w[0] == BACKSLASH then [BACKSLASH, w[0]] else [w[0]]) + Escaped(w[1..])
  }

  function Written(style: Style, w: string): string {
    match style
    case Bare => w
    case Single => [APOSTROPHE] + w + [APOSTROPHE]
    case Double => [QUOTE] + Escaped(w) + [QUOTE]
  }

  /** A line of words, with a gap before each word and one at the end. */
  function Line(styles: seq<Style>, words: seq<string>, gaps: seq<string>): string
    requires |styles| == |words| && |gaps| == |words| + 1
  {
    if words == [] then gaps[0] else gaps[0] + Written(styles[0], words[0]) + Line(styles[1..], words[1..], gaps[1..])
  }

  /** Gaps are made of spaces, and between two words they are not empty. */
  predicate Gaps(gaps: seq<string>) {
    (forall k :: 0 <= k < |gaps| ==> AllSpace(gaps[k])) && (forall k :: 0 < k < |gaps| - 1 ==> gaps[k] != "")
  }

  /** One more character is scanned. */
  lemma ScanOne(c: char, rest: string, st: State, on: State)
    requires Next(st, c) == Some(on)
    ensures Scan([c] + rest, st) == (Scan(rest, on).0, Scan(rest, on).1 + 1)
  {
    assert ([c] + rest)[1..] == rest;
  }

  lemma EscapedEmpty(tail: string)
    ensures Escaped("") + tail == tail && |Escaped("")| == 0
  {
  }

  /** How the escaped form begins. */
  lemma {:induction false} EscapedBegins(w: string, tail: string)
    requires w != ""
    ensures var c, rest := w[0], Escaped(w[1..]) + tail;
            if c == QUOTE || c == BACKSLASH then
              Escaped(w) + tail == [BACKSLASH] + ([c] + rest) && |Escaped(w)| == |Escaped(w[1..])| + 2
            else Escaped(w) + tail == [c] + rest && |Escaped(w)| == |Escaped(w[1..])| + 1
  {
    var c, more := w[0], Escaped(w[1..]);
    if c == QUOTE || c == BACKSLASH {
      assert Escaped(w) == [BACKSLASH, c] + more;
      TwoInFront(BACKSLASH, c, more, tail);
    } else {
      assert Escaped(w) == [c] + more;
      OneInFront(c, more, tail);
    }
  }

  lemma OneInFront(c: char, more: string, tail: string)
    ensures [c] + more + tail == [c] + (more + tail)
  {
  }

  lemma TwoInFront(b: char, c: char, more: string, tail: string)
    ensures [b, c] + more + tail == [b] + ([c] + (more + tail))
  {
  }

  lemma {:induction false} ScanEscaped(w: string, st: State, tail: string)
    requires !st.esc && st.quote == Some(QUOTE)
    ensures Scan(Escaped(w) + tail, st).0 == Scan(tail, st.(word := st.word + w)).0
    ensures Scan(Escaped(w) + tail, st).1 == |Escaped(w)| + Scan(tail, st.(word := st.word + w)).1
    decreases |w|
  {
    hide Scan, Escaped;
    if w == "" {
      EscapedEmpty(tail);
      assert st.word + w == st.word;
    } else {
      var c, on := w[0], st.(word := st.word + [w[0]]);
      var rest := Escaped(w[1..]) + tail;
      EscapedBegins(w, tail);
      ScanEscaped(w[1..], on, tail);
      Appended(st.word, w);
      if c == QUOTE || c == BACKSLASH {
        ScanOne(c, rest, st.(esc := true), on);
        ScanOne(BACKSLASH, [c] + rest, st, st.(esc := true));
      } else {
        ScanOne(c, rest, st, on);
      }
    }
  }

  lemma Appended(front: string, w: string)
    requires w != ""
    ensures front + [w[0]] + w[1..] == front + w
  {
  }

  /** Characters that are copied as they are. */
  lemma {:induction false} ScanPlain(w: string, st: State, tail: string)
    requires !st.esc
    requires forall k :: 0 <= k < |w| ==>
               if st.quote == None then !IsSpace(w[k]) && w[k] != QUOTE && w[k] != APOSTROPHE
                                                      else st.quote == Some(APOSTROPHE) && w[k] != APOSTROPHE
    ensures Scan(w + tail, st).0 == Scan(tail, st.(word := st.word + w)).0
    ensures Scan(w + tail, st).1 == |w| + Scan(tail, st.(word := st.word + w)).1
    decreases |w|
  {
    hide Scan;
    if w == "" {
      assert w + tail == tail && st.word + w == st.word;
    } else {
      var on := st.(word := st.word + [w[0]]);
      ScanPlain(w[1..], on, tail);
      Appended(st.word, w);
      assert w + tail == [w[0]] + (w[1..] + tail);
      ScanOne(w[0], w[1..] + tail, st, on);
    }
  }

  /** A written word is read back, up to the space or the end behind it. */
  lemma WordBack(style: Style, w: string, tail: string)
    requires CanWrite(style, w) && (tail == "" || IsSpace(tail[0]))
    ensures WordOf(Written(style, w) + tail) == Word(w, |Written(style, w)| + 1)
  {
    hide Scan, Next, Escaped, IsSpace;
    WordEnds(w, tail);
    match style
    case Bare =>
      BareBack(w, tail);
    case Single =>
      SingleBack(w, tail);
      Joined(APOSTROPHE, w, tail);
    case Double =>
      DoubleBack(w, tail);
      Joined(QUOTE, Escaped(w), tail);
  }

  lemma Joined(q: char, s: string, tail: string)
    ensures [q] + s + [q] + tail == [q] + (s + ([q] + tail))
  {
  }

  lemma BareBack(w: string, tail: string)
    requires CanWrite(Bare, w) && Scan(tail, State(w, false, None)) == (State(w, false, None), 0)
    ensures Scan(w + tail, START) == (State(w, false, None), |w|)
  {
    hide Scan;
    ScanPlain(w, START, tail);
    assert "" + w == w;
  }

  lemma SingleBack(w: string, tail: string)
    requires CanWrite(Single, w) && Scan(tail, State(w, false, None)) == (State(w, false, None), 0)
    ensures Scan([APOSTROPHE] + (w + ([APOSTROPHE] + tail)), START) == (State(w, false, None), |w| + 2)
  {
    hide Scan, Next;
    ScanQuoted(APOSTROPHE, w, tail);
    ScanPlain(w, START.(quote := Some(APOSTROPHE)), [APOSTROPHE] + tail);
    assert "" + w == w;
  }

  lemma DoubleBack(w: string, tail: string)
    requires Scan(tail, State(w, false, None)) == (State(w, false, None), 0)
    ensures Scan([QUOTE] + (Escaped(w) + ([QUOTE] + tail)), START) == (State(w, false, None), |Escaped(w)| + 2)
  {
    hide Scan, Next, Escaped;
    ScanQuoted(QUOTE, Escaped(w), tail);
    ScanQuoted(QUOTE, w, tail);
    ScanEscaped(w, START.(quote := Some(QUOTE)), [QUOTE] + tail);
    assert "" + w == w;
  }

  lemma WordEnds(w: string, tail: string)
    requires tail == "" || IsSpace(tail[0])
    ensures Scan(tail, State(w, false, None)) == (State(w, false, None), 0)
  {
  }

  lemma QuoteSteps(q: char, w: string)
    requires q == QUOTE || q == APOSTROPHE
    ensures Next(START, q) == Some(START.(quote := Some(q)))
    ensures Next(State(w, false, Some(q)), q) == Some(State(w, false, None))
  {
  }

  /** The quotes around a word. */
  lemma ScanQuoted(q: char, w: string, tail: string)
    requires q == QUOTE || q == APOSTROPHE
    ensures var r := Scan(w + ([q] + tail), START.(quote := Some(q)));
            Scan([q] + (w + ([q] + tail)), START) == (r.0, r.1 + 1)
    ensures var r := Scan(tail, State(w, false, None)); Scan([q] + tail, State(w, false, Some(q))) == (r.0, r.1 + 1)
  {
    hide Scan, Next, IsSpace;
    QuoteSteps(q, w);
    ScanOne(q, w + ([q] + tail), START, START.(quote := Some(q)));
    ScanOne(q, tail, State(w, false, Some(q)), State(w, false, None));
  }

  lemma {:induction false} TrimmedGap(gap: string, s: string)
    requires AllSpace(gap) && (s == "" || !IsSpace(s[0]))
    ensures Trimmed(gap + s) == s
  {
    if gap == "" {
      assert gap + s == s;
    } else {
      assert (gap + s)[1..] == gap[1..] + s;
      TrimmedGap(gap[1..], s);
    }
  }

  /** Spaces in front of a line make no difference. */
  lemma {:induction false} GapSkipped(gap: string, s: string)
    requires AllSpace(gap)
    ensures Trimmed(gap + s) == Trimmed(s) && WordsOf(gap + s) == WordsOf(s)
  {
    hide IsSpace;
    if gap == "" {
      assert gap + s == s;
    } else {
      assert (gap + s)[0] == gap[0] && (gap + s)[1..] == gap[1..] + s;
      GapSkipped(gap[1..], s);
      TrimmedTwice(gap + s);
      TrimmedTwice(s);
    }
  }

  /** Words in front of anything else are parsed, in whatever style suits each of them, and then the rest. */
  lemma {:induction false} WordsThen(styles: seq<Style>, words: seq<string>, gaps: seq<string>, rest: string)
    requires |styles| == |words| && |gaps| == |words| + 1 && Gaps(gaps)
    requires forall k :: 0 <= k < |words| ==> CanWrite(styles[k], words[k])
    requires rest == "" || gaps[|words|] != ""
    ensures WordsOf(Line(styles, words, gaps) + rest) == After(words, WordsOf(rest))
    decreases |words|
  {
    hide WordOf, WordsOf, Trimmed, Escaped, IsSpace, AllSpace, CanWrite, Written;
    var line := Line(styles, words, gaps);
    if words == [] {
      GapSkipped(gaps[0], rest);
      AfterNone(WordsOf(rest));
    } else {
      var word, more := Written(styles[0], words[0]), Line(styles[1..], words[1..], gaps[1..]);
      var tail := more + rest;
      assert line + rest == gaps[0] + (word + tail);
      GapFirst(styles[1..], words[1..], gaps[1..], rest);
      WrittenFirst(styles[0], words[0], tail);
      TrimmedGap(gaps[0], word + tail);
      WordsStep(line + rest, word + tail);
      WordBack(styles[0], words[0], tail);
      assert (word + tail)[|word|..] == tail;
      WordsThen(styles[1..], words[1..], gaps[1..], rest);
      BeforeAfter(words, WordsOf(rest));
    }
  }

  lemma BeforeAfter(words: seq<string>, more: WordsResult)
    requires words != []
    ensures Before(words[0], After(words[1..], more)) == After(words, more)
  {
    if more.Parsed? {
      assert [words[0]] + (words[1..] + more.words) == words + more.words;
    }
  }

  /** Any list of words is parsed back. */
  lemma WordsBack(styles: seq<Style>, words: seq<string>, gaps: seq<string>)
    requires |styles| == |words| && |gaps| == |words| + 1 && Gaps(gaps)
    requires forall k :: 0 <= k < |words| ==> CanWrite(styles[k], words[k])
    ensures WordsOf(Line(styles, words, gaps)) == Parsed(words)
  {
    WordsThen(styles, words, gaps, "");
    assert Line(styles, words, gaps) + "" == Line(styles, words, gaps);
    assert WordsOf("") == Parsed([]);
  }

  /** The first word that is not closed is the error of the line, whatever words come before it. */
  lemma FirstErrorCounts(styles: seq<Style>, words: seq<string>, gaps: seq<string>, bad: string)
    requires |styles| == |words| && |gaps| == |words| + 1 && Gaps(gaps) && gaps[|words|] != ""
    requires forall k :: 0 <= k < |words| ==> CanWrite(styles[k], words[k])
    requires bad != "" && !IsSpace(bad[0]) && !WordOf(bad).Word?
    ensures WordsOf(Line(styles, words, gaps) + bad) == Failed(WordOf(bad))
  {
    WordsThen(styles, words, gaps, bad);
    assert Trimmed(bad) == bad;
    WordsStep(bad, bad);
  }

  lemma WrittenFirst(style: Style, w: string, tail: string)
    requires CanWrite(style, w)
    ensures var s := Written(style, w) + tail; s != "" && !IsSpace(s[0])
  {
  }

  lemma GapFirst(styles: seq<Style>, words: seq<string>, gaps: seq<string>, rest: string)
    requires |styles| == |words| && |gaps| == |words| + 1
    requires AllSpace(gaps[0]) && (words != [] ==> gaps[0] != "") && (words == [] ==> rest == "" || gaps[0] != "")
    ensures var s := Line(styles, words, gaps) + rest; s == "" || IsSpace(s[0])
  {
    hide IsSpace, Written;
  }
}
