/**
 * The receptionist agent's built-in salon knowledge (backend/agent/salon_context.py):
 * the initial knowledge base, the keyword lookup that answers simple questions
 * without the language model, and the knowledge text placed in the prompt.
 */
module SalonContext {
  import opened Wrappers
  import opened Helpers

  /** The keys of `INITIAL_KNOWLEDGE_BASE`, in insertion order. */
  const TopicKeys: seq<string> := [
    "hours", "services", "prices", "location", "address", "phone", "website", "booking", "parking",
    "walk_ins", "parking_paid", "contact", "appointment_reschedule", "cancellation_policy",
    "payment_methods", "gift_cards", "first_time_customer", "special_occasions",
    "color_consultation", "membership"
  ]

  /** Keys and answers paired up, position by position. */
  function Pairs(keys: seq<string>, answers: seq<string>): (kb: seq<(string, string)>)
    requires |answers| == |keys|
    ensures |kb| == |keys| && forall i :: 0 <= i < |kb| ==> kb[i] == (keys[i], answers[i])
  {
    if keys == [] then [] else [(keys[0], answers[0])] + Pairs(keys[1..], answers[1..])
  }

  /** The keys of a run of entries, in order. */
  function Keys(kb: seq<(string, string)>): (keys: seq<string>)
    ensures |keys| == |kb| && forall i :: 0 <= i < |kb| ==> keys[i] == kb[i].0
  {
    if kb == [] then [] else [kb[0].0] + Keys(kb[1..])
  }

  /** Pairing keys with answers keeps the keys, in order. */
  lemma PairsKeys(keys: seq<string>, answers: seq<string>)
    requires |answers| == |keys|
    ensures Keys(Pairs(keys, answers)) == keys
  {
  }

  // ================================================================ quick answers

  /** The first key, in order, that occurs in `text`, if any. */
  function FirstMatch(keys: seq<string>, text: string): (r: Option<nat>)
    ensures r.Some? ==> r.value < |keys| && Occurs(keys[r.value], text)
                        && forall j :: 0 <= j < r.value ==> !Occurs(keys[j], text)
    ensures r.None? ==> forall j :: 0 <= j < |keys| ==> !Occurs(keys[j], text)
  {
    if keys == [] then None
    else if Occurs(keys[0], text) then Some(0)
    else
      match FirstMatch(keys[1..], text)
      case None => None
      case Some(i) => Some(i + 1)
  }

  /** The keyword lookup: the answer of the first key contained in the lower-cased query, or
      the empty text when no key occurs. */
  function Lookup(keys: seq<string>, answers: seq<string>, query: string): string
    requires |answers| == |keys|
  {
    match FirstMatch(keys, Lower(query))
    case Some(i) => answers[i]
    case None => ""
  }

  /** The loop of `get_quick_answer`: try the keys in order and return the first hit. */
  method FindQuickAnswer(keys: seq<string>, answers: seq<string>, query: string) returns (answer: string)
    requires |answers| == |keys|
    ensures answer == Lookup(keys, answers, query)
  {
    var queryLower := Lower(query);
    for i := 0 to |keys|
      invariant forall j :: 0 <= j < i ==> !Occurs(keys[j], queryLower)
    {
      if Occurs(keys[i], queryLower) {
        assert FirstMatch(keys, queryLower) == Some(i);
        return answers[i];
      }
    }
    return "";
  }

  /** A key that contains an earlier key is never the first match: wherever it occurs, the
      earlier key occurs too. */
  lemma ShadowedKey(keys: seq<string>, i: nat, j: nat, text: string)
    requires i < j < |keys| && keys[i] <= keys[j]
    ensures FirstMatch(keys, text) != Some(j)
  {
    if Occurs(keys[j], text) {
      OccursPrefix(keys[i], keys[j], text);
    }
  }

  /** "parking" comes before "parking_paid" and is a prefix of it, so any query containing
      "parking_paid" is answered with the "parking" entry: the "parking_paid" answer is
      never returned. */
  lemma ParkingPaidNeverAnswered(query: string)
    ensures TopicKeys[8] == "parking" && TopicKeys[10] == "parking_paid"
    ensures FirstMatch(TopicKeys, Lower(query)) != Some(10)
  {
    ShadowedKey(TopicKeys, 8, 10, Lower(query));
  }

  // ================================================================ prompt text

  /** `str.title()` on ASCII text: a letter is upper-cased when it starts a run of letters
      and lower-cased inside one; other characters are kept. */
  function TitleCase(s: string, afterLetter: bool := false): (r: string)
    ensures |r| == |s|
    ensures forall i :: 0 <= i < |s| ==>
              r[i] == if (if i == 0 then afterLetter else IsLetter(s[i - 1])) then LowerChar(s[i]) else UpperChar(s[i])
  {
    if s == [] then []
    else [if afterLetter then LowerChar(s[0]) else UpperChar(s[0])] + TitleCase(s[1..], IsLetter(s[0]))
  }

  /** Title-casing keeps letters letters and other characters as they are. */
  lemma CaseKeepsLetters(c: char)
    ensures IsLetter(LowerChar(c)) == IsLetter(c) && IsLetter(UpperChar(c)) == IsLetter(c)
    ensures LowerChar(UpperChar(c)) == LowerChar(c) && UpperChar(LowerChar(c)) == UpperChar(c)
    ensures LowerChar(LowerChar(c)) == LowerChar(c) && UpperChar(UpperChar(c)) == UpperChar(c)
  {
  }

  /** Title-casing twice is title-casing once. */
  lemma {:induction false} TitleCaseIdempotent(s: string, afterLetter: bool := false)
    ensures TitleCase(TitleCase(s, afterLetter), afterLetter) == TitleCase(s, afterLetter)
  {
    if s != [] {
      var t := TitleCase(s, afterLetter);
      var rest := TitleCase(s[1..], IsLetter(s[0]));
      assert t == [t[0]] + rest;
      assert t[1..] == rest;
      CaseKeepsLetters(s[0]);
      assert IsLetter(t[0]) == IsLetter(s[0]);
      TitleCaseIdempotent(s[1..], IsLetter(s[0]));
    }
  }

  /** The heading of an entry: the key with "_" turned into a space, title-cased. A letter is
      upper-cased when it starts a word and lower-cased inside one; an underscore becomes a
      space; every other character is kept. */
  function Title(key: string): (title: string)
    ensures |title| == |key|
    ensures forall i :: 0 <= i < |key| && key[i] == '_' ==> title[i] == ' '
    ensures forall i :: 0 <= i < |key| && key[i] != '_' && !IsLetter(key[i]) ==> title[i] == key[i]
    ensures forall i :: 0 <= i < |key| && IsLetter(key[i]) ==>
              title[i] == if i > 0 && IsLetter(key[i - 1]) then LowerChar(key[i]) else UpperChar(key[i])
  {
    var spaced := ReplaceChar(key, '_', ' ');
    assert forall i :: 0 <= i < |key| ==> IsLetter(spaced[i]) == IsLetter(key[i]);
    var t := TitleCase(spaced);
    forall i | 0 <= i < |key| && !IsLetter(key[i]) ensures t[i] == spaced[i] {
      assert t[i] == if (if i == 0 then false else IsLetter(spaced[i - 1]))
                     then LowerChar(spaced[i]) else UpperChar(spaced[i]);
      assert LowerChar(spaced[i]) == spaced[i] && UpperChar(spaced[i]) == spaced[i];
    }
    t
  }

  const Header: string := "## Salon Information (Current Knowledge Base):\n\n"

  /** The text one entry contributes. */
  function Block(entry: (string, string)): string {
    "**" + Title(entry.0) + ":**\n" + entry.1 + "\n\n"
  }

  /** The texts of the items, one after another. */
  function Join<T>(items: seq<T>, text: T -> string): string {
    if items == [] then "" else Join(items[..|items| - 1], text) + text(items[|items| - 1])
  }

  /** Joining two runs of items gives the join of the first followed by that of the second. */
  lemma {:induction false} JoinConcat<T>(a: seq<T>, b: seq<T>, text: T -> string)
    ensures Join(a + b, text) == Join(a, text) + Join(b, text)
  {
    if b == [] {
      assert a + b == a;
    } else {
      var n := |b| - 1;
      assert (a + b)[..|a + b| - 1] == a + b[..n];
      JoinConcat(a, b[..n], text);
    }
  }

  /** The blocks of the entries, in order. */
  function Blocks(kb: seq<(string, string)>): string {
    Join(kb, Block)
  }

  /** The blocks of two runs of entries are the blocks of the first followed by those of the
      second. */
  lemma BlocksConcat(a: seq<(string, string)>, b: seq<(string, string)>)
    ensures Blocks(a + b) == Blocks(a) + Blocks(b)
  {
    JoinConcat(a, b, Block);
  }

  lemma BlocksOne(e: (string, string))
    ensures Blocks([e]) == Block(e)
  {
    assert [e][..0] == [];
    assert Join([e], Block) == Join([], Block) + Block(e);
  }

  lemma BlocksAround(kb: seq<(string, string)>, before: seq<(string, string)>, e: (string, string),
                     after: seq<(string, string)>)
    requires kb == before + [e] + after
    ensures Blocks(kb) == Blocks(before) + Block(e) + Blocks(after)
  {
    BlocksConcat(before + [e], after);
    BlocksConcat(before, [e]);
    BlocksOne(e);
  }

  lemma SplitAt<T>(s: seq<T>, i: nat)
    requires i < |s|
    ensures s == s[..i] + [s[i]] + s[i + 1..]
  {
  }

  /** The blocks are one per entry, in order: the i-th entry's block sits between the blocks
      of the entries before it and those after it. */
  lemma BlocksLayout(kb: seq<(string, string)>, i: nat)
    requires i < |kb|
    ensures Blocks(kb) == Blocks(kb[..i]) + Block(kb[i]) + Blocks(kb[i + 1..])
  {
    SplitAt(kb, i);
    BlocksAround(kb, kb[..i], kb[i], kb[i + 1..]);
  }

  /** The loop of `get_knowledge_base_string`: the header, then each entry's block appended
      in order. */
  method BuildKnowledgeString(kb: seq<(string, string)>) returns (kbStr: string)
    ensures kbStr == Header + Blocks(kb)
  {
    kbStr := Header;
    for i := 0 to |kb|
      invariant kbStr == Header + Blocks(kb[..i])
    {
      var (key, value) := kb[i];
      assert kb[..i + 1][..i] == kb[..i];
      kbStr := kbStr + "**" + Title(key) + ":**\n";
      kbStr := kbStr + value + "\n\n";
    }
    assert kb[..|kb|] == kb;
  }
}
