/** The call command of the chat screen (App.jsx): an utterance that mentions
    "call" in any letter case is a request to phone the contact named by the
    rest of the utterance. The contacts lookup is not modelled: how it settles
    for the extracted name is an input of the handler. */
module App {
  import opened Wrappers
  import opened Text

  /* ---------------------------------------------------------------- data */

  /** One entry of a contact's `phoneNumbers` list. */
  datatype PhoneNumber = PhoneNumber(number: string)

  /** A contact as the contacts lookup returns it. */
  datatype Contact = Contact(displayName: string, phoneNumbers: seq<PhoneNumber>)

  /** What handling one utterance does: nothing at all; a contacts lookup
      for `query` that rejects, after which nothing more happens; or a lookup
      for `query` followed by speaking `speech` and, when `dial` holds a URL,
      opening it. */
  datatype Outcome =
    | Ignored
    | LookupRejected(query: string)
    | Respond(query: string, speech: string, dial: Option<string>)

  const Keyword: string := "call"

  /* ---------------------------------------------------------------- detection */

  /** The utterance, lower-cased, contains "call" anywhere. */
  predicate IsCallCommand(command: string) {
    Contains(Lower(command), Keyword)
  }

  /** The case-insensitive pattern `/call/i` matches at index `i`. */
  predicate CallAt(command: string, i: nat) {
    i + |Keyword| <= |command| && Lower(command[i..i + |Keyword|]) == Keyword
  }

  /** `i` is where `/call/i` matches first. */
  predicate IsFirstCallAt(command: string, i: nat) {
    CallAt(command, i) && forall j: nat :: j < i ==> !CallAt(command, j)
  }

  /** Scans for the leftmost case-insensitive "call" at or after `from`. */
  function FindCallFrom(command: string, from: nat): (r: Option<nat>)
    requires from <= |command|
    ensures r.Some? ==> from <= r.value && CallAt(command, r.value)
    ensures r.Some? ==> forall j: nat :: from <= j < r.value ==> !CallAt(command, j)
    ensures r.None? ==> forall j: nat :: from <= j ==> !CallAt(command, j)
    decreases |command| - from
  {
    if from + |Keyword| > |command| then None
    else if CallAt(command, from) then Some(from)
    else FindCallFrom(command, from + 1)
  }

  /** The detection by lower-casing and the removal by the case-insensitive
      pattern agree: an utterance is a call command exactly when the pattern
      finds a "call" to remove, and it finds the first one. */
  lemma CallDetectionAgrees(command: string)
    ensures IsCallCommand(command) <==> FindCallFrom(command, 0).Some?
    ensures IsCallCommand(command) <==> exists i: nat :: CallAt(command, i)
    ensures FindCallFrom(command, 0).Some? ==> IsFirstCallAt(command, FindCallFrom(command, 0).value)
  {
    if IsCallCommand(command) {
      var i: nat :| i <= |Lower(command)| && OccursAt(Lower(command), Keyword, i);
      LowerSlice(command, i, i + |Keyword|);
      assert CallAt(command, i);
    }
    var r := FindCallFrom(command, 0);
    if r.Some? {
      LowerSlice(command, r.value, r.value + |Keyword|);
      assert OccursAt(Lower(command), Keyword, r.value);
    }
  }

  /* ---------------------------------------------------------------- the query */

  /** `command.replace(/call/i, '')`: the first case-insensitive "call"
      removed, everything else kept. A non-call utterance is left as it is,
      and a call utterance loses exactly four characters. */
  function RemoveFirstCall(command: string): (r: string)
    ensures !IsCallCommand(command) ==> r == command
    ensures IsCallCommand(command) ==> |r| == |command| - |Keyword|
    ensures forall i: nat :: IsFirstCallAt(command, i) ==> r == command[..i] + command[i + |Keyword|..]
  {
    CallDetectionAgrees(command);
    match FindCallFrom(command, 0)
    case None => command
    case Some(i) => command[..i] + command[i + |Keyword|..]
  }

  /** The contact name the handler looks up and speaks: the utterance without
      its first "call", trimmed. It has no surrounding whitespace and, for a
      call command, is strictly shorter than the utterance. */
  function ContactQuery(command: string): (name: string)
    ensures name != [] ==> !IsWhitespace(name[0]) && !IsWhitespace(name[|name| - 1])
    ensures IsCallCommand(command) ==> |name| < |command|
  {
    CallDetectionAgrees(command);
    TrimNoLonger(RemoveFirstCall(command));
    Trim(RemoveFirstCall(command))
  }

  /** The query is the trimmed utterance with exactly the first
      case-insensitive "call" cut out. */
  lemma ContactQueryCutsFirstCall(command: string, i: nat)
    requires IsFirstCallAt(command, i)
    ensures IsCallCommand(command)
    ensures ContactQuery(command) == Trim(command[..i] + command[i + |Keyword|..])
  {
    CallDetectionAgrees(command);
    var k := FindCallFrom(command, 0).value;
    assert !(k < i) && !(i < k);
  }

  /** In "recall Bob" the pattern matches first inside "recall". */
  lemma RecallFirstCall(s: string)
    requires s == "recall Bob"
    ensures IsFirstCallAt(s, 2)
  {
    assert s[2..6] == Keyword;
    forall j: nat | j < 2
      ensures !CallAt(s, j)
    {
      assert Lower(s[j..j + 4])[2] == LowerChar(s[j + 2]) != Keyword[2];
    }
  }

  /** "recall Bob" is a call command, since the "call" inside "recall"
      counts, and the name looked up is "re Bob". */
  lemma RecallIsACall(s: string)
    requires s == "recall Bob"
    ensures IsCallCommand(s)
    ensures ContactQuery(s) == "re Bob"
  {
    assert s[..2] + s[6..] == "re Bob";
    TrimFixed("re Bob");
    RecallFirstCall(s);
    ContactQueryCutsFirstCall(s, 2);
  }

  /* ---------------------------------------------------------------- dialling */

  /** `startCall`: the URL opened to dial `phoneNumber`. Reading the number
      back from it gives exactly `phoneNumber`. */
  function StartCall(phoneNumber: string): (url: string)
    ensures DialedNumber(url) == Some(phoneNumber)
  {
    var url := "tel:" + phoneNumber;
    assert url[..4] == "tel:" && url[4..] == phoneNumber;
    url
  }

  /** The phone number a `tel:` URL dials, if it is one. */
  function DialedNumber(url: string): Option<string> {
    if |url| >= 4 && url[..4] == "tel:" then Some(url[4..]) else None
  }

  /** Distinct numbers give distinct dial URLs. */
  lemma StartCallInjective(phoneNumber: string, other: string)
    requires StartCall(phoneNumber) == StartCall(other)
    ensures phoneNumber == other
  {
    assert Some(phoneNumber) == DialedNumber(StartCall(other)) == Some(other);
  }

  /* ---------------------------------------------------------------- the handler */

  /** `contacts[0].phoneNumbers[0]?.number`: the first number of the first
      contact, when that contact has any. */
  function FirstNumber(first: Contact): Option<string> {
    if |first.phoneNumbers| > 0 then Some(first.phoneNumbers[0].number) else None
  }

  /** `handleVoiceCommand`. `lookup` is how the awaited contacts lookup for
      the extracted name settles: `Some` of the list it resolves with, or
      `None` when it rejects, which ends the handler before anything is
      spoken or dialled. An empty number is falsy and counts as missing.
      A non-call utterance causes no lookup at all; a call utterance always
      looks up its extracted query. */
  function HandleVoiceCommand(command: string, lookup: Option<seq<Contact>>): (r: Outcome)
    ensures r.Ignored? <==> !IsCallCommand(command)
    ensures !r.Ignored? ==> r.query == ContactQuery(command)
    ensures r.LookupRejected? <==> IsCallCommand(command) && lookup.None?
  {
    if !IsCallCommand(command) then Ignored
    else
      var name := ContactQuery(command);
      match lookup
      case None => LookupRejected(name)
      case Some(contacts) =>
        if |contacts| > 0 then
          var phoneNumber := FirstNumber(contacts[0]);
          if phoneNumber.Some? && phoneNumber.value != "" then
            Respond(name, "Calling " + name, Some(StartCall(phoneNumber.value)))
          else
            Respond(name, name + " does not have a phone number.", None)
        else
          Respond(name, "Contact " + name + " not found.", None)
  }

  /** An empty lookup result: only "Contact {name} not found." is spoken. */
  lemma NoContactNotFound(command: string)
    requires IsCallCommand(command)
    ensures var name := ContactQuery(command);
      HandleVoiceCommand(command, Some([])) == Respond(name, "Contact " + name + " not found.", None)
  {
  }

  /** A call is placed exactly when the first contact's first number exists
      and is non-empty; then that number is dialled and "Calling {name}" is
      spoken, and otherwise "{name} does not have a phone number." is. */
  lemma DialsFirstNumberOnly(command: string, contacts: seq<Contact>)
    requires IsCallCommand(command) && |contacts| > 0
    ensures var r := HandleVoiceCommand(command, Some(contacts));
      var name := ContactQuery(command);
      var n := FirstNumber(contacts[0]);
      (r.dial.Some? <==> n.Some? && n.value != "") &&
      (r.dial.Some? ==> DialedNumber(r.dial.value) == n && r.speech == "Calling " + name) &&
      (r.dial.None? ==> r.speech == name + " does not have a phone number.")
  {
  }

  /** Only the first contact's first number is consulted: two lookup results
      that agree on it give the same outcome, whatever the stored names and
      the other contacts are. */
  lemma OnlyFirstNumberConsulted(command: string, xs: seq<Contact>, ys: seq<Contact>)
    requires |xs| > 0 && |ys| > 0
    requires FirstNumber(xs[0]) == FirstNumber(ys[0])
    ensures HandleVoiceCommand(command, Some(xs)) == HandleVoiceCommand(command, Some(ys))
  {
  }

  /** The name spoken is always the extracted query, in one of the three
      sentences, never a contact's stored name; only "Calling" dials. */
  lemma SpokenNameIsQuery(command: string, contacts: seq<Contact>)
    requires IsCallCommand(command)
    ensures var name := ContactQuery(command);
      var r := HandleVoiceCommand(command, Some(contacts));
      (exists n :: r == Respond(name, "Calling " + name, Some(StartCall(n)))) ||
      r == Respond(name, name + " does not have a phone number.", None) ||
      r == Respond(name, "Contact " + name + " not found.", None)
  {
    if |contacts| > 0 {
      var n := FirstNumber(contacts[0]);
      if n.Some? && n.value != "" {
        var name := ContactQuery(command);
        assert HandleVoiceCommand(command, Some(contacts)) == Respond(name, "Calling " + name, Some(StartCall(n.value)));
      }
    }
  }

  /* ---------------------------------------------------------------- the screen */

  /** Who sent a bubble. The screen only ever adds `User` bubbles; the
      rendering styles a `User` bubble one way and any other sender's the
      other way. */
  datatype Sender = User | System

  /** One bubble of the transcript list. */
  datatype Message = Message(text: string, sender: Sender)

  /** The chat screen's state: the transcript list and the text field. */
  class ChatScreen {
    var messages: seq<Message>
    var recognizedText: string

    /** Every bubble on screen was sent by the user and has text. */
    ghost predicate Valid()
      reads this
    {
      forall k :: 0 <= k < |messages| ==> messages[k].sender == User && messages[k].text != ""
    }

    constructor ()
      ensures Valid()
      ensures messages == [] && recognizedText == ""
    {
      messages := [];
      recognizedText := "";
    }

    /** `onChangeText` of the input field. */
    method EditText(text: string)
      requires Valid()
      modifies this
      ensures Valid()
      ensures messages == old(messages) && recognizedText == text
    {
      recognizedText := text;
    }

    /** `onSpeechResults`: the transcript goes into the input field and is
        handled as a command; `lookup` is how the contacts lookup settles. */
    method OnSpeechResults(text: string, lookup: Option<seq<Contact>>) returns (outcome: Outcome)
      requires Valid()
      modifies this
      ensures Valid()
      ensures messages == old(messages) && recognizedText == text
      ensures outcome == HandleVoiceCommand(text, lookup)
    {
      recognizedText := text;
      outcome := HandleVoiceCommand(text, lookup);
    }

    /** `sendMessage`: non-empty text becomes one more user bubble at the end
        and the field is cleared; empty text changes nothing. */
    method SendMessage()
      requires Valid()
      modifies this
      ensures Valid()
      ensures old(recognizedText) != "" ==>
        messages == old(messages) + [Message(old(recognizedText), User)] && recognizedText == ""
      ensures old(recognizedText) == "" ==>
        messages == old(messages) && recognizedText == old(recognizedText)
    {
      if recognizedText != "" {
        messages := messages + [Message(recognizedText, User)];
        recognizedText := "";
      }
    }
  }
}
