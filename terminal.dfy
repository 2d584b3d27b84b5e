/**
 * The EVE terminal window (components/TerminalBackup.js): the typewriter
 * state together with the transcript it shows and the input line.
 *
 * The component's React state becomes the fields of `Terminal`. A typewriter
 * callback is `Step`; the effect that mirrors the typed text into the
 * transcript is `SyncMessages`; the Enter-key handler is `Submit`.
 */
module TerminalWindow {
  import opened Typewriter

  /** The `type` of a transcript message. */
  datatype Kind = System | User | Assistant

  /** One `{ type, content }` entry of the transcript. */
  datatype Message = Message(kind: Kind, content: string)

  /** The canned reply to every submitted line. */
  const MockResponse: string := "You may not use me. Please whitelist first."

  /** The prompt drawn before a transcript line: `// ` for the typewriter's
      system line, `> ` for everything else. */
  function PromptPrefix(kind: Kind): (p: string)
    ensures p == "// " <==> kind == System
    ensures p == "> " <==> kind != System
  {
    if kind == User then "> " else if kind == System then "// " else "> "
  }

  /** The characters `String.prototype.trim` removes: ECMAScript WhiteSpace
      and LineTerminator code points. */
  predicate IsSpace(c: char) {
    || c == '\t' || c == '\n' || c == '\U{000B}' || c == '\U{000C}' || c == '\r'
    || c == ' ' || c == '\U{00A0}' || c == '\U{1680}'
    || ('\U{2000}' <= c <= '\U{200A}')
    || c == '\U{2028}' || c == '\U{2029}' || c == '\U{202F}' || c == '\U{205F}'
    || c == '\U{3000}' || c == '\U{FEFF}'
  }

  /** `s` without its leading white space. */
  function TrimStart(s: string): (r: string)
    ensures |r| <= |s| && r == s[|s| - |r|..]
    ensures forall i :: 0 <= i < |s| - |r| ==> IsSpace(s[i])
    ensures r != [] ==> !IsSpace(r[0])
  {
    if s != [] && IsSpace(s[0]) then
      var r := TrimStart(s[1..]);
      assert forall i :: 1 <= i < |s| ==> s[i] == s[1..][i - 1];
      r
    else
      s
  }

  /** `s` without its trailing white space. */
  function TrimEnd(s: string): (r: string)
    ensures |r| <= |s| && r == s[..|r|]
    ensures forall i :: |r| <= i < |s| ==> IsSpace(s[i])
    ensures r != [] ==> !IsSpace(r[|r| - 1])
  {
    if s != [] && IsSpace(s[|s| - 1]) then
      var r := TrimEnd(s[..|s| - 1]);
      assert forall i :: 0 <= i < |s| - 1 ==> s[i] == s[..|s| - 1][i];
      r
    else
      s
  }

  /** `String.prototype.trim`. */
  function Trim(s: string): string {
    TrimEnd(TrimStart(s))
  }

  /** The trimmed string is empty exactly when every character is white space. */
  lemma TrimEmpty(s: string)
    ensures Trim(s) == [] <==> forall i :: 0 <= i < |s| ==> IsSpace(s[i])
  {
  }

  /** Whether `handleSubmit` acts: the key is Enter and the input has a
      character that is not white space. */
  function SubmitAccepted(key: string, input: string): (b: bool)
    ensures b <==> key == "Enter" && exists i :: 0 <= i < |input| && !IsSpace(input[i])
  {
    TrimEmpty(input);
    !(key != "Enter" || Trim(input) == [])
  }

  class Terminal {
    var messages: seq<Message>
    var currentMessageIndex: nat
    var isTyping: bool
    var currentText: string
    var inputValue: string

    /** The typewriter part of the state. */
    function State(): Typist
      reads this
    {
      Typist(currentText, isTyping, currentMessageIndex)
    }

    /** The typed text is a prefix of its sentence, the transcript opens with
        the system line showing that text, and only user and assistant lines
        follow it. */
    ghost predicate Valid()
      reads this
    {
      && Inv(Sentences, State())
      && |messages| >= 1
      && messages[0] == Message(System, currentText)
      && forall i :: 1 <= i < |messages| ==> messages[i].kind != System
    }

    /** The component once mounted: the first sentence, typing, nothing typed,
        and the transcript effect has run once on the empty text. */
    constructor ()
      ensures Valid()
      ensures State() == Start(0)
      ensures messages == [Message(System, [])]
      ensures inputValue == []
    {
      currentMessageIndex := 0;
      isTyping := true;
      currentText := [];
      inputValue := [];
      messages := [Message(System, [])];
    }

    /** The effect on `currentText`: the transcript becomes the one system
        line with the current text. */
    method SyncMessages()
      modifies this`messages
      ensures messages == [Message(System, currentText)]
    {
      messages := [Message(System, currentText)];
    }

    /** One typewriter callback, followed by the transcript effect when the
        text changed. */
    method Step()
      requires Valid()
      modifies this
      ensures Valid()
      ensures State() == Next(Sentences, old(State()))
      ensures currentText != old(currentText) ==> messages == [Message(System, currentText)]
      ensures currentText == old(currentText) ==> messages == old(messages)
      ensures inputValue == old(inputValue)
    {
      var sentence := Sentences[currentMessageIndex];
      if isTyping {
        if |currentText| < |sentence| {
          currentText := sentence[..|currentText| + 1];
          SyncMessages();
        } else {
          isTyping := false;
        }
      } else {
        if |currentText| > 0 {
          currentText := currentText[..|currentText| - 1];
          SyncMessages();
        } else {
          currentMessageIndex := (currentMessageIndex + 1) % |Sentences|;
          isTyping := true;
        }
      }
    }

    /** `handleInputChange`: the input line takes the new text. */
    method ChangeInput(text: string)
      modifies this`inputValue
      ensures inputValue == text
    {
      inputValue := text;
    }

    /** `handleSubmit`: on Enter with a non-blank input, the input and the
        canned reply are appended to the transcript and the input is cleared;
        otherwise nothing changes. */
    method Submit(key: string)
      requires Valid()
      modifies this`messages, this`inputValue
      ensures Valid()
      ensures SubmitAccepted(key, old(inputValue)) ==>
        && messages == old(messages) + [Message(User, old(inputValue)), Message(Assistant, MockResponse)]
        && inputValue == []
      ensures !SubmitAccepted(key, old(inputValue)) ==>
        messages == old(messages) && inputValue == old(inputValue)
    {
      if key != "Enter" || Trim(inputValue) == [] {
        return;
      }
      messages := messages + [Message(User, inputValue)];
      messages := messages + [Message(Assistant, MockResponse)];
      inputValue := [];
    }
  }

  /** After any number of callbacks from mounting, the typewriter state is
      the pure machine's state and the transcript's first line is its text. */
  method Animate(n: nat) returns (t: Terminal)
    ensures t.Valid()
    ensures t.State() == Run(Sentences, Start(0), n)
    ensures t.messages[0] == Message(System, t.State().text)
  {
    t := new Terminal();
    var k := 0;
    while k < n
      invariant 0 <= k <= n
      invariant t.Valid()
      invariant Run(Sentences, t.State(), n - k) == Run(Sentences, Start(0), n)
    {
      t.Step();
      k := k + 1;
    }
  }
}
