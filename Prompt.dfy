/** The responder of the plain script (`generate_response` in the LLM variant): the
    three-message chat prompt. The chat model itself is a function parameter; its
    reply is stripped, as the script does. */
module Prompt {
  import opened Text

  datatype Role = System | User

  /** The role names the chat API expects. */
  function RoleName(role: Role): (name: string)
    ensures name == "system" || name == "user"
  {
    match role
    case System => "system"
    case User => "user"
  }

  datatype Message = Message(role: Role, content: string)

  datatype Option<T> = None | Some(value: T)

  const Instruction: string :=
    "You are an expert assistant. Use the context below to answer questions clearly and politely."

  const ContextLabel: string := "Context:\n"

  /** The `messages` list: the fixed instruction, the labelled context, the question. */
  function BuildMessages(context: string, userInput: string): seq<Message> {
    [Message(System, Instruction), Message(User, ContextLabel + context), Message(User, userInput)]
  }

  /** Reads the context back out of a prompt, if it has the prompt's shape. */
  function ContextOf(messages: seq<Message>): Option<string> {
    if |messages| == 3 && ContextLabel <= messages[1].content
    then Some(messages[1].content[|ContextLabel|..])
    else None
  }

  /** Reads the question back out of a prompt, if it has the prompt's shape. */
  function QuestionOf(messages: seq<Message>): Option<string> {
    if |messages| == 3 then Some(messages[2].content) else None
  }

  /** The reply: whatever the model answers to the prompt, stripped. */
  function Answer(model: seq<Message> -> string, context: string, userInput: string): (reply: string)
    ensures IsStripped(reply)
  {
    Strip(model(BuildMessages(context, userInput)))
  }

  /** The prompt keeps its inputs verbatim: context and question read back unchanged,
      and the roles are system, user, user. */
  lemma PromptRoundTrip(context: string, userInput: string)
    ensures ContextOf(BuildMessages(context, userInput)) == Some(context)
    ensures QuestionOf(BuildMessages(context, userInput)) == Some(userInput)
    ensures var ms := BuildMessages(context, userInput);
            |ms| == 3 && ms[0] == Message(System, Instruction) && ms[1].role == User && ms[2].role == User
  {
    var ms := BuildMessages(context, userInput);
    assert ms[1].content[|ContextLabel|..] == context;
  }

  /** Different inputs give different prompts. */
  lemma PromptInjective(c1: string, u1: string, c2: string, u2: string)
    requires BuildMessages(c1, u1) == BuildMessages(c2, u2)
    ensures c1 == c2 && u1 == u2
  {
    PromptRoundTrip(c1, u1);
    PromptRoundTrip(c2, u2);
  }

  /** There is no guard on an empty context: the prompt still has three messages,
      the second carrying the bare label. */
  lemma EmptyContextPrompt(userInput: string)
    ensures var ms := BuildMessages("", userInput);
            |ms| == 3 && ms[1] == Message(User, ContextLabel) && ContextOf(ms) == Some("")
  {
    PromptRoundTrip("", userInput);
    assert ContextLabel + "" == ContextLabel;
  }

  /** The roles of the prompt go out as "system", "user", "user", in that order. */
  lemma PromptRoles(context: string, userInput: string)
    ensures var ms := BuildMessages(context, userInput);
            |ms| == 3 && RoleName(ms[0].role) == "system" &&
            RoleName(ms[1].role) == "user" && RoleName(ms[2].role) == "user"
  {
  }
}
