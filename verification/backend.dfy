/** The generation backend as the core sees it: one call `generate(user_prompt, system_prompt)`
    that returns reply text or raises. Provider adapters are outside the model; a run of the
    backend is given as the sequence of its replies, one per call. */
module Backend {

  /** The (system, user) prompt pair a prompt builder produces and every call sends. */
  datatype PromptPair = PromptPair(system: string, user: string)

  /** The outcome of one backend call: the reply text, or an error the call raised. */
  datatype Reply = Text(text: string) | Error
}
