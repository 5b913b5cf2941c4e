/** Environment variable names made from item and field names (`sanitize_env_name` of
    src/commands.rs). Names are their UTF-8 bytes. */
module EnvNames {
  import opened ByteStrings

  const UNDERSCORE: byte := 0x5f
  const ITEM: Bytes := Octets("ITEM")

  predicate Lowercase(b: byte) { 0x61 <= b <= 0x7a }
  predicate Uppercase(b: byte) { 0x41 <= b <= 0x5a }

  predicate EndsInWord(text: Bytes) {
    text != [] && Alphanumeric(text[|text| - 1])
  }

  // ----- the runs of a text -----

  predicate IsWord(w: Bytes) {
    w != [] && forall i :: 0 <= i < |w| ==> Uppercase(w[i]) || IsDigit(w[i])
  }

  predicate AreWords(words: seq<Bytes>) {
    forall i :: 0 <= i < |words| ==> IsWord(words[i])
  }

  function Append(words: seq<Bytes>, joins: bool, b: byte): (more: seq<Bytes>)
    requires joins ==> words != []
    ensures more != []
  {
    if joins then words[..|words| - 1] + [words[|words| - 1] + [b]] else words + [[b]]
  }

  /** The maximal alphanumeric runs of a text, in upper case. */
  function Words(text: Bytes): (words: seq<Bytes>)
    ensures EndsInWord(text) ==> words != []
  {
    if text == [] then []
    else
      var before, b := text[..|text| - 1], text[|text| - 1];
      if Alphanumeric(b) then Append(Words(before), EndsInWord(before), Upper(b)) else Words(before)
  }

  lemma {:induction false} WordsAreWords(text: Bytes)
    ensures AreWords(Words(text))
  {
    if text != [] { WordsAreWords(text[..|text| - 1]); }
  }

  /** The words joined by single underscores. */
  function Join(words: seq<Bytes>): (text: Bytes) {
    if words == [] then []
    else if |words| == 1 then words[0]
    else Join(words[..|words| - 1]) + [UNDERSCORE] + words[|words| - 1]
  }

  /** An `ITEM` word goes in front when there is no word or the first starts with a digit. */
  function ItemWords(words: seq<Bytes>): (item: seq<Bytes>)
    requires AreWords(words)
    ensures item != [] && AreWords(item) && Uppercase(item[0][0])
  {
    if words == [] || IsDigit(words[0][0]) then [ITEM] + words else words
  }

  function NameWords(text: Bytes): (words: seq<Bytes>)
    ensures words != [] && AreWords(words) && Uppercase(words[0][0])
  {
    WordsAreWords(text);
    ItemWords(Words(text))
  }

  /** The name made from a text. */
  function Sanitized(text: Bytes): (name: Bytes) {
    Join(NameWords(text))
  }

  // ----- joining -----

  lemma {:induction false} JoinEnds(words: seq<Bytes>)
    requires AreWords(words)
    ensures words == [] <==> Join(words) == []
    ensures words != [] ==> Join(words)[0] == words[0][0]
    ensures words != [] ==> EndsInWord(Join(words)) && Join(words)[|Join(words)| - 1] != UNDERSCORE
  {
    if |words| > 1 { JoinEnds(words[..|words| - 1]); }
  }

  lemma JoinAppend(words: seq<Bytes>, joins: bool, b: byte)
    requires joins ==> words != []
    ensures Join(Append(words, joins, b)) ==
      if joins then Join(words) + [b]
      else if words == [] then [b] else Join(words) + [UNDERSCORE] + [b]
  {
    var more := Append(words, joins, b);
    if joins {
      assert more[..|more| - 1] == words[..|words| - 1];
    } else {
      assert more[..|more| - 1] == words;
    }
  }

  lemma {:induction false} JoinPrepend(word: Bytes, words: seq<Bytes>)
    requires words != []
    ensures Join([word] + words) == word + [UNDERSCORE] + Join(words)
  {
    var all := [word] + words;
    assert all[..|all| - 1] == [word] + words[..|words| - 1];
    if |words| > 1 {
      JoinPrepend(word, words[..|words| - 1]);
    } else {
      assert all == [word, words[0]];
    }
  }

  // ----- the loop -----

  /** What the loop has pushed: the words so far and the separator of the next one. */
  ghost predicate Pushed(sanitized: Bytes, lastWasSeparator: bool, text: Bytes) {
    && lastWasSeparator == !EndsInWord(text)
    && sanitized == Join(Words(text)) + if lastWasSeparator && Words(text) != [] then [UNDERSCORE] else []
  }

  /** One more character. */
  lemma WordsAppend(text: Bytes, b: byte)
    ensures Words(text + [b]) == if Alphanumeric(b) then Append(Words(text), EndsInWord(text), Upper(b)) else Words(text)
    ensures EndsInWord(text + [b]) == Alphanumeric(b)
  {
    assert (text + [b])[..|text|] == text;
  }

  lemma PushCharacter(sanitized: Bytes, last: bool, text: Bytes, b: byte)
    requires Pushed(sanitized, last, text) && Alphanumeric(b)
    ensures Pushed(sanitized + [Upper(b)], false, text + [b])
  {
    WordsAppend(text, b);
    JoinAppend(Words(text), EndsInWord(text), Upper(b));
    var joined := Join(Words(text));
    assert Words(text) == [] ==> joined == [];
    assert joined + [] == joined && [] + [Upper(b)] == [Upper(b)];
  }

  lemma PushSeparator(sanitized: Bytes, last: bool, text: Bytes, b: byte)
    requires Pushed(sanitized, last, text) && !Alphanumeric(b)
    ensures !last ==> Pushed(sanitized + [UNDERSCORE], true, text + [b])
    ensures last ==> Pushed(sanitized, true, text + [b])
  {
    WordsAppend(text, b);
    assert Join(Words(text)) + [] == Join(Words(text));
  }

  method SanitizeEnvName(name: Bytes) returns (sanitized: Bytes)
    ensures sanitized == Sanitized(name)
  {
    sanitized := [];
    var lastWasSeparator := true;
    for i := 0 to |name|
      invariant Pushed(sanitized, lastWasSeparator, name[..i])
    {
      var b := name[i];
      if Alphanumeric(b) {
        PushCharacter(sanitized, lastWasSeparator, name[..i], b);
      } else {
        PushSeparator(sanitized, lastWasSeparator, name[..i], b);
      }
      assert name[..i + 1] == name[..i] + [b];
      if Lowercase(b) {
        sanitized := sanitized + [Upper(b)];
        lastWasSeparator := false;
      } else if Uppercase(b) || IsDigit(b) {
        sanitized := sanitized + [b];
        lastWasSeparator := false;
      } else if !lastWasSeparator {
        sanitized := sanitized + [UNDERSCORE];
        lastWasSeparator := true;
      }
    }
    assert name[..|name|] == name;
    WordsAreWords(name);
    JoinEnds(Words(name));
    while sanitized != [] && sanitized[|sanitized| - 1] == UNDERSCORE
      invariant sanitized == Join(Words(name)) || sanitized == Join(Words(name)) + [UNDERSCORE]
    {
      sanitized := sanitized[..|sanitized| - 1];
    }
    assert sanitized == Join(Words(name));
    if sanitized == [] {
      sanitized := ITEM;
    } else if IsDigit(sanitized[0]) {
      sanitized := ITEM + [UNDERSCORE] + sanitized;
      JoinPrepend(ITEM, Words(name));
    }
  }

  // ----- what the names are -----

  /** The runs of two texts with a separator between them are the runs of the one, then of the other. */
  lemma {:induction false} WordsSplit(a: Bytes, separator: byte, b: Bytes)
    requires !Alphanumeric(separator)
    ensures Words(a + [separator] + b) == Words(a) + Words(b)
    ensures EndsInWord(a + [separator] + b) == EndsInWord(b)
  {
    if b == [] {
      WordsAppend(a, separator);
      assert a + [separator] + b == a + [separator];
      assert Words(a) + [] == Words(a);
    } else {
      var before, last := b[..|b| - 1], b[|b| - 1];
      WordsSplit(a, separator, before);
      assert a + [separator] + b == (a + [separator] + before) + [last];
      WordsAppend(a + [separator] + before, last);
      AppendAfter(Words(a), Words(before), EndsInWord(before), Upper(last));
    }
  }

  lemma AppendAfter(words: seq<Bytes>, more: seq<Bytes>, joins: bool, b: byte)
    requires joins ==> more != []
    ensures Append(words + more, joins, b) == words + Append(more, joins, b)
  {
    if joins { assert (words + more)[..|words + more| - 1] == words + more[..|more| - 1]; }
  }

  lemma {:induction false} WordsOfWord(w: Bytes)
    requires IsWord(w)
    ensures Words(w) == [w]
  {
    if |w| == 1 {
      assert w == [w[0]];
    } else {
      var before, last := w[..|w| - 1], w[|w| - 1];
      WordsOfWord(before);
      assert EndsInWord(before) && Upper(last) == last;
      assert before + [last] == w;
    }
  }

  /** The letters of a run in upper case, digits as they are. */
  function Capitals(run: Bytes): (w: Bytes) {
    seq(|run|, i requires 0 <= i < |run| => Upper(run[i]))
  }

  /** A text of letters and digits is one word. */
  lemma {:induction false} WordsOfRun(run: Bytes)
    requires run != [] && forall i :: 0 <= i < |run| ==> Alphanumeric(run[i])
    ensures Words(run) == [Capitals(run)] && EndsInWord(run)
  {
    var before, last := run[..|run| - 1], run[|run| - 1];
    assert Capitals(run) == Capitals(before) + [Upper(last)];
    if before == [] {
      assert Words(before) == [] && Capitals(run) == [Upper(last)];
    } else {
      WordsOfRun(before);
    }
  }

  /** A name is its words, joined, behind `ITEM` if there is none or the first starts with a digit. */
  lemma SanitizedMeaning(text: Bytes)
    ensures Words(text) == [] ==> Sanitized(text) == Octets("ITEM")
    ensures Words(text) != [] ==> Words(text)[0] != []
    ensures Words(text) != [] ==>
      Sanitized(text) == (if IsDigit(Words(text)[0][0]) then Octets("ITEM_") else []) + Join(Words(text))
  {
    var words := Words(text);
    WordsAreWords(text);
    assert Octets("ITEM_") == ITEM + [UNDERSCORE];
    if words != [] {
      assert IsWord(words[0]);
      JoinPrepend(ITEM, words);
    }
  }

  /** Words are joined in order with single underscores between. */
  lemma JoinMeaning(first: Bytes, rest: seq<Bytes>)
    ensures Join([first]) == first
    ensures rest != [] ==> Join([first] + rest) == first + Octets("_") + Join(rest)
  {
    assert Octets("_") == [UNDERSCORE];
    if rest != [] { JoinPrepend(first, rest); }
  }

  lemma WordsOfMore(text: Bytes, words: seq<Bytes>, word: Bytes)
    requires Words(text) == words && IsWord(word)
    ensures Words(text + [UNDERSCORE] + word) == words + [word]
  {
    WordsOfWord(word);
    WordsSplit(text, UNDERSCORE, word);
  }

  lemma {:induction false} WordsOfJoin(words: seq<Bytes>)
    requires AreWords(words)
    ensures Words(Join(words)) == words
  {
    if |words| == 1 {
      WordsOfWord(words[0]);
    } else if |words| > 1 {
      var before, last := words[..|words| - 1], words[|words| - 1];
      WordsOfJoin(before);
      assert Join(words) == Join(before) + [UNDERSCORE] + last;
      WordsOfMore(Join(before), before, last);
      assert before + [last] == words;
    }
  }

  /** A name that every shell accepts, whose underscores are single and inside. */
  predicate Portable(name: Bytes) {
    && name != [] && Uppercase(name[0])
    && Tidy(name)
  }

  predicate Tidy(name: Bytes) {
    && (forall i :: 0 <= i < |name| ==> Uppercase(name[i]) || IsDigit(name[i]) || name[i] == UNDERSCORE)
    && forall i :: 0 <= i < |name| && name[i] == UNDERSCORE ==>
      0 < i && i + 1 < |name| && name[i + 1] != UNDERSCORE
  }

  lemma {:induction false} JoinTidy(words: seq<Bytes>)
    requires AreWords(words)
    ensures Tidy(Join(words))
  {
    if |words| > 1 {
      var before, last := words[..|words| - 1], words[|words| - 1];
      JoinTidy(before);
      JoinEnds(before);
      assert IsWord(last);
    }
  }

  lemma SanitizedIsPortable(text: Bytes)
    ensures Portable(Sanitized(text))
  {
    JoinTidy(NameWords(text));
    JoinEnds(NameWords(text));
  }

  lemma SanitizedIsIdempotent(text: Bytes)
    ensures Sanitized(Sanitized(text)) == Sanitized(text)
  {
    WordsOfJoin(NameWords(text));
  }

  /** Two texts make the same name exactly when they have the same words, up to the leading `ITEM`. */
  lemma SanitizedCollides(a: Bytes, b: Bytes)
    ensures Sanitized(a) == Sanitized(b) <==> NameWords(a) == NameWords(b)
  {
    WordsOfJoin(NameWords(a));
    WordsOfJoin(NameWords(b));
  }
}
