/**
 * What every hook script shares: the tool event it reads from standard
 * input, the decision it prints, and the exit status it returns.
 */
module Hooks {

  datatype Option<+T> = None | Some(value: T)

  /**
   * One tool event, by tool name. A parameter the event does not carry reads
   * as "" (every script reads its parameters with `.get(key, "")`);
   * `MultiEdit` keeps the `new_string` of each of its edits, in order.
   */
  datatype Event =
    | Bash(command: string)
    | Write(filePath: string, content: string)
    | Edit(filePath: string, oldString: string, newString: string)
    | MultiEdit(filePath: string, newStrings: seq<string>)
    | Read(filePath: string)
    | OtherTool(toolName: string)

  /** Standard input either failed to decode as JSON (with the decoder's message) or named an event. */
  datatype Input = Malformed(error: string) | Parsed(event: Event)

  /** The printed decision: approve, with an optional reason, or block with a reason. */
  datatype Decision = Approve(note: Option<string>) | Block(reason: string)

  /** Write, Edit and MultiEdit: the tools that change a file. */
  predicate ChangesFile(e: Event) {
    e.Write? || e.Edit? || e.MultiEdit?
  }

  /**
   * The status `main()` returns alongside each printed decision: every
   * script returns 1 exactly where it prints "block".
   */
  function ExitStatus(d: Decision): (code: int)
    ensures code == 0 || code == 1
    ensures code == 1 <==> d.Block?
  {
    if d.Block? then 1 else 0
  }

  /** The answer to input that is not valid JSON: approve, naming the decoder error. */
  function ParseFailure(error: string): (d: Decision)
    ensures d.Approve? && d.note.Some?
  {
    Approve(Some("Failed to parse input: " + error))
  }
}
