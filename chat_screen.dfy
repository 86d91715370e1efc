/**
 * The message list of the character chat screen: sending a message, the
 * placeholder the reply is typed into one character per tick, and the
 * apology that replaces the placeholder when the request fails. Every
 * message's id is its 1-based position in the list.
 */
module ChatScreen {

  import opened Wrappers
  import JsText

  datatype Sender = User | Character

  datatype Message = Message(id: int, text: string, sender: Sender)

  const ApologyText := "I'm having trouble understanding. Please try again."

  /** The first message; an absent or empty character name reads "Unknown". */
  function Greeting(characterName: string): (r: string)
    ensures characterName == "" ==> r == "Hello, I am Unknown. How can I help you today?"
    ensures characterName != "" ==> r == "Hello, I am " + characterName + ". How can I help you today?"
  {
    "Hello, I am " + (if characterName == "" then "Unknown" else characterName) + ". How can I help you today?"
  }

  predicate IdsArePositions(ms: seq<Message>) {
    forall i :: 0 <= i < |ms| ==> ms[i].id == i + 1
  }

  /** `prev => [...prev, { id: prev.length + 1, text, sender }]`. */
  function Append(prev: seq<Message>, text: string, sender: Sender): (r: seq<Message>)
    ensures |r| == |prev| + 1 && r[..|prev|] == prev
    ensures r[|prev|].text == text && r[|prev|].sender == sender
    ensures IdsArePositions(prev) ==> IdsArePositions(r)
  {
    prev + [Message(|prev| + 1, text, sender)]
  }

  /** The error-path updater: drop the last message when its text is empty. */
  function DropPlaceholder(prev: seq<Message>): (r: seq<Message>)
    requires prev != []
    ensures prev[|prev| - 1].text == "" ==> r == prev[..|prev| - 1]
    ensures prev[|prev| - 1].text != "" ==> r == prev
    ensures IdsArePositions(prev) ==> IdsArePositions(r)
  {
    if prev[|prev| - 1].text == "" then prev[..|prev| - 1] else prev
  }

  /** `fullText[index] || ''`: the character at index, or nothing past the end. */
  function CharAt(fullText: string, index: nat): (r: string)
    ensures index < |fullText| ==> r == [fullText[index]]
    ensures index >= |fullText| ==> r == []
  {
    if index < |fullText| then [fullText[index]] else []
  }

  /** One tick of the typing interval: append a piece to the last message, keeping its id and sender. */
  function TypeStep(prev: seq<Message>, piece: string): (r: seq<Message>)
    requires prev != []
    ensures |r| == |prev| && r[..|r| - 1] == prev[..|prev| - 1]
    ensures r[|r| - 1] == prev[|prev| - 1].(text := prev[|prev| - 1].text + piece)
    ensures IdsArePositions(prev) ==> IdsArePositions(r)
  {
    var last := prev[|prev| - 1];
    prev[|prev| - 1 := last.(text := last.text + piece)]
  }

  function Max1(n: nat): nat {
    if n == 0 then 1 else n
  }

  class Screen {
    var messages: seq<Message>
    var input: string
    var isTyping: bool

    /**
     * The list is never empty, its ids are positions, and the first message
     * (the greeting) has text, so dropping an empty last message never
     * empties the list.
     */
    ghost predicate Valid()
      reads this
    {
      messages != [] && IdsArePositions(messages) && messages[0].text != ""
    }

    constructor (characterName: string)
      ensures Valid()
      ensures messages == [Message(1, Greeting(characterName), Character)]
      ensures input == "" && !isTyping
    {
      messages := [Message(1, Greeting(characterName), Character)];
      input := "";
      isTyping := false;
    }

    /** The text field's onChangeText. */
    method SetInput(text: string)
      modifies this`input
      ensures input == text
    {
      input := text;
    }

    /**
     * simulateTyping: each tick appends `fullText[index] || ''` to the last
     * message; the interval stops once index reaches the text's length, so
     * it ticks max(|fullText|, 1) times.
     */
    method SimulateTyping(fullText: string) returns (ticks: nat)
      requires Valid()
      modifies this`messages, this`isTyping
      ensures Valid()
      ensures ticks == Max1(|fullText|)
      ensures |messages| == |old(messages)|
      ensures messages[..|messages| - 1] == old(messages)[..|messages| - 1]
      ensures messages[|messages| - 1] ==
                old(messages)[|messages| - 1].(text := old(messages)[|messages| - 1].text + fullText)
      ensures !isTyping
    {
      isTyping := true;
      ghost var before := messages;
      ghost var n := |messages|;
      var index := 0;
      var running := true;
      ticks := 0;
      while running
        invariant 0 <= index <= Max1(|fullText|) && ticks == index
        invariant running <==> index == 0 || index < |fullText|
        invariant |messages| == n && messages[..n - 1] == before[..n - 1]
        invariant messages[n - 1] ==
                    before[n - 1].(text := before[n - 1].text + fullText[..if index < |fullText| then index else |fullText|])
        invariant IdsArePositions(messages) && messages[0].text != ""
        decreases Max1(|fullText|) - index
      {
        ghost var prevText := messages[n - 1].text;
        messages := TypeStep(messages, CharAt(fullText, index));
        assert index < |fullText| ==> fullText[..index + 1] == fullText[..index] + [fullText[index]];
        if n == 1 {
          assert messages[0].text == prevText + CharAt(fullText, index);
          assert |prevText| > 0;
        }
        index := index + 1;
        ticks := ticks + 1;
        if index >= |fullText| {
          running := false;
        }
      }
      assert fullText[..|fullText|] == fullText;
      isTyping := false;
    }

    /**
     * sendMessage: a whitespace-only input does nothing. Otherwise the trimmed
     * text is appended as the user's message, the input is cleared, an empty
     * character placeholder is appended, and then either the reply is typed
     * into it (`reply` is Some) or, when the request failed, the placeholder
     * is dropped and the apology appended.
     */
    method SendMessage(reply: Option<string>) returns (ticks: nat)
      requires Valid()
      modifies this`messages, this`input, this`isTyping
      ensures Valid()
      ensures JsText.Trim(old(input)) == "" ==>
                messages == old(messages) && input == old(input) && isTyping == old(isTyping) && ticks == 0
      ensures JsText.Trim(old(input)) != "" ==>
                && input == "" && !isTyping
                && |messages| == |old(messages)| + 2
                && messages[..|old(messages)|] == old(messages)
                && messages[|old(messages)|] == Message(|old(messages)| + 1, JsText.Trim(old(input)), User)
                && messages[|old(messages)| + 1] ==
                     Message(|old(messages)| + 2, if reply.Some? then reply.value else ApologyText, Character)
                && ticks == (if reply.Some? then Max1(|reply.value|) else 0)
    {
      var userMessage := JsText.Trim(input);
      if userMessage == "" {
        return 0;
      }
      ghost var before := messages;
      messages := Append(messages, userMessage, User);
      input := "";
      messages := Append(messages, "", Character);
      assert messages == before + [Message(|before| + 1, userMessage, User), Message(|before| + 2, "", Character)];
      if reply.Some? {
        ticks := SimulateTyping(reply.value);
        assert messages[..|before| + 1] == before + [Message(|before| + 1, userMessage, User)];
      } else {
        isTyping := false;
        messages := DropPlaceholder(messages);
        messages := Append(messages, ApologyText, Character);
        ticks := 0;
      }
    }
  }

  /**
   * The error path's two updaters: the empty placeholder is dropped and the
   * apology takes its place, and its id.
   */
  lemma ApologyReplacesPlaceholder(prev: seq<Message>)
    requires prev != [] && IdsArePositions(prev) && prev[|prev| - 1].text == ""
    ensures Append(DropPlaceholder(prev), ApologyText, Character) ==
              prev[..|prev| - 1] + [Message(|prev|, ApologyText, Character)]
  {
  }

  /** The list's updaters, as one type, for stating what any sequence of them keeps. */
  datatype Updater = AppendMsg(text: string, sender: Sender) | Drop | Tick(piece: string)

  function ApplyUpdater(ms: seq<Message>, u: Updater): (r: seq<Message>)
    requires ms != [] && ms[0].text != ""
    ensures r != [] && r[0].text != ""
  {
    match u
    case AppendMsg(text, sender) => Append(ms, text, sender)
    case Drop =>
      assert |ms| == 1 ==> ms[|ms| - 1].text != "";
      DropPlaceholder(ms)
    case Tick(piece) =>
      var r := TypeStep(ms, piece);
      assert |ms| == 1 ==> r[0].text == ms[0].text + piece;
      r
  }

  function ApplyAllUpdaters(ms: seq<Message>, us: seq<Updater>): (r: seq<Message>)
    requires ms != [] && ms[0].text != ""
    ensures r != [] && r[0].text != ""
    decreases |us|
  {
    if us == [] then ms else ApplyAllUpdaters(ApplyUpdater(ms, us[0]), us[1..])
  }

  /** Starting from a list whose ids are positions, every sequence of updaters keeps them so. */
  lemma {:induction false} UpdatersKeepIds(ms: seq<Message>, us: seq<Updater>)
    requires ms != [] && IdsArePositions(ms) && ms[0].text != ""
    ensures IdsArePositions(ApplyAllUpdaters(ms, us))
    decreases |us|
  {
    if us != [] {
      UpdatersKeepIds(ApplyUpdater(ms, us[0]), us[1..]);
    }
  }
}
