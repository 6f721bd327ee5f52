/**
 * The state of the ChatBot component: the message list, the input box,
 * whether the window is open, and the unread badge counter. Each React
 * state update together with the effects it triggers is one method.
 */
module ChatWidget {
  import opened Wrappers
  import opened Text
  import opened ChatBot

  datatype Message = Message(id: string, text: string, isBot: bool, timestamp: int)

  /** The greeting shown when nothing was restored from local storage. */
  const Greeting: string :=
    "Hi! I'm here to help you with questions about Hometown Heating services. What would you like to know?"

  /** A user message with text, followed by the bot's reply to that text. */
  predicate IsExchange(user: Message, bot: Message, reply: string -> string) {
    && !user.isBot && bot.isBot
    && user.text != []
    && bot.text == reply(user.text)
  }

  /** A conversation made only of complete exchanges. */
  predicate Exchanges(ms: seq<Message>, reply: string -> string)
    decreases |ms|
  {
    ms == [] || (|ms| >= 2 && IsExchange(ms[0], ms[1], reply) && Exchanges(ms[2..], reply))
  }

  lemma {:induction false} ExchangesAppend(ms: seq<Message>, user: Message, bot: Message, reply: string -> string)
    requires Exchanges(ms, reply) && IsExchange(user, bot, reply)
    ensures Exchanges(ms + [user, bot], reply)
    decreases |ms|
  {
    if ms != [] {
      assert (ms + [user, bot])[2..] == ms[2..] + [user, bot];
      ExchangesAppend(ms[2..], user, bot, reply);
    }
  }

  lemma SliceOfAppend<T>(s: seq<T>, k: nat, t: seq<T>)
    requires k <= |s|
    ensures (s + t)[k..] == s[k..] + t
  {
  }

  /** The unread-badge effect fires: the window is closed and the last message is the bot's. */
  predicate BadgeFires(isOpen: bool, messages: seq<Message>) {
    !isOpen && |messages| > 0 && messages[|messages| - 1].isBot
  }

  class ChatSession {
    /** The responder the component calls: getBotResponse, fixed at construction. */
    const reply: string -> string
    var messages: seq<Message>
    var inputValue: string
    var isOpen: bool
    var unread: nat
    /** How many messages were there at mount; everything after them was typed in this session. */
    ghost var restored: nat

    ghost predicate Valid()
      reads this
    {
      restored <= |messages| && Exchanges(messages[restored..], reply)
    }

    /**
     * Mount: the messages restored from local storage, or the greeting; then the
     * badge effect runs once on the closed window.
     */
    constructor (persisted: Option<seq<Message>>, now: int)
      ensures Valid() && reply == GetBotResponse
      ensures messages == (if persisted.Some? then persisted.value else [Message("1", Greeting, true, now)])
      ensures inputValue == [] && !isOpen
      ensures unread == (if BadgeFires(false, messages) then 1 else 0)
    {
      var initial := if persisted.Some? then persisted.value else [Message("1", Greeting, true, now)];
      reply := GetBotResponse;
      messages := initial;
      inputValue := [];
      isOpen := false;
      unread := 0;
      restored := |initial|;
      new;
      UnreadEffect();
    }

    /** The effect on [messages, isOpen]: count one unread reply while the window is closed. */
    method UnreadEffect()
      modifies this`unread
      ensures unread == if BadgeFires(isOpen, messages) then old(unread) + 1 else old(unread)
    {
      if !isOpen && |messages| > 0 && messages[|messages| - 1].isBot {
        unread := unread + 1;
      }
    }

    /** The input box's onChange. */
    method SetInput(value: string)
      modifies this`inputValue
      ensures inputValue == value
    {
      inputValue := value;
    }

    /**
     * handleSendMessage. Blank input is dropped and nothing changes. Otherwise the
     * trimmed text and the bot's answer to it are appended, the box is cleared and,
     * as the message list changed, the badge effect runs.
     */
    method SendMessage(userId: string, botId: string, userTime: int, botTime: int)
      requires Valid()
      modifies this
      ensures Valid()
      ensures restored == old(restored) && isOpen == old(isOpen)
      ensures Trim(old(inputValue)) == [] ==>
        messages == old(messages) && inputValue == old(inputValue) && unread == old(unread)
      ensures Trim(old(inputValue)) != [] ==>
        && messages == old(messages) + [Message(userId, Trim(old(inputValue)), false, userTime),
                                        Message(botId, reply(Trim(old(inputValue))), true, botTime)]
        && inputValue == []
        && unread == if isOpen then old(unread) else old(unread) + 1
    {
      var text := Trim(inputValue);
      if text == [] {
        return;
      }
      AppendExchange(Message(userId, text, false, userTime), Message(botId, reply(text), true, botTime));
      inputValue := [];
      UnreadEffect();
    }

    /** The setMessages update: the user's message and the bot's reply go at the end. */
    method AppendExchange(userMessage: Message, botMessage: Message)
      requires Valid() && IsExchange(userMessage, botMessage, reply)
      modifies this`messages
      ensures Valid()
      ensures messages == old(messages) + [userMessage, botMessage]
    {
      ExchangesAppend(messages[restored..], userMessage, botMessage, reply);
      SliceOfAppend(messages, restored, [userMessage, botMessage]);
      messages := messages + [userMessage, botMessage];
    }

    /** The round chat button: flip the window; opening clears the badge; the effect then runs. */
    method Toggle()
      requires Valid()
      modifies this
      ensures Valid()
      ensures isOpen == !old(isOpen)
      ensures messages == old(messages) && inputValue == old(inputValue) && restored == old(restored)
      ensures isOpen ==> unread == 0
      ensures !isOpen ==> unread == if BadgeFires(false, messages) then old(unread) + 1 else old(unread)
    {
      var next := !isOpen;
      isOpen := next;
      if next {
        unread := 0;
      }
      UnreadEffect();
    }

    /** The close button in the window header: setIsOpen(false). */
    method Close()
      requires Valid()
      modifies this
      ensures Valid()
      ensures !isOpen
      ensures messages == old(messages) && inputValue == old(inputValue) && restored == old(restored)
      ensures old(isOpen) ==> unread == if BadgeFires(false, messages) then old(unread) + 1 else old(unread)
      ensures !old(isOpen) ==> unread == old(unread)
    {
      if isOpen {
        isOpen := false;
        UnreadEffect();
      }
    }
  }
}
