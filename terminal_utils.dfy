/**
 * `getPromptString(cwd, user, host)`: the shell prompt `user@host:<path>$`, where the path is `~`
 * for the root directory and `~` followed by the working directory otherwise.
 */
module TerminalUtils {
  import opened Wrappers
  import PathResolver

  const DEFAULT_USER: string := "nightwalker28"
  const DEFAULT_HOST: string := "nightwalkerslenovo"

  /** How the prompt shows the working directory. */
  function PathDisplay(cwd: string): string {
    if cwd == "/" then "~" else "~" + cwd
  }

  function PromptString(cwd: string, user: string, host: string): (prompt: string)
    ensures |prompt| > |user| && prompt[..|user|] == user && prompt[|prompt| - 1] == '$'
  {
    user + "@" + host + ":" + PathDisplay(cwd) + "$"
  }

  /** The prompt with the default user and host. */
  function DefaultPrompt(cwd: string): string {
    PromptString(cwd, DEFAULT_USER, DEFAULT_HOST)
  }

  /**
   * The prompt is `user@host:~`, then nothing at the root and the working directory verbatim
   * anywhere else, then `$`.
   */
  lemma PromptLayout(cwd: string, user: string, host: string)
    ensures var prompt := PromptString(cwd, user, host);
      var head := user + "@" + host + ":~";
      && |prompt| == |head| + (if cwd == "/" then 0 else |cwd|) + 1
      && prompt[..|head|] == head
      && prompt[|prompt| - 1] == '$'
      && prompt[|head|..|prompt| - 1] == (if cwd == "/" then "" else cwd)
  {
    var head := user + "@" + host + ":~";
    var prompt := PromptString(cwd, user, host);
    if cwd == "/" {
      assert prompt == head + "$";
    } else {
      assert prompt == head + cwd + "$";
    }
  }

  /** Reads the working directory back out of a prompt for `user` and `host`. */
  function ParsePrompt(prompt: string, user: string, host: string): (cwd: Option<string>)
  {
    var head := user + "@" + host + ":~";
    if |prompt| < |head| + 1 || prompt[..|head|] != head || prompt[|prompt| - 1] != '$' then None
    else
      var rest := prompt[|head|..|prompt| - 1];
      if rest == [] then Some("/") else Some(rest)
  }

  /** The prompt determines every working directory except the empty one. */
  lemma ParsePromptString(cwd: string, user: string, host: string)
    requires cwd != []
    ensures ParsePrompt(PromptString(cwd, user, host), user, host) == Some(cwd)
  {
    PromptLayout(cwd, user, host);
  }

  /** Two working directories other than the empty one give the same prompt only when they are equal. */
  lemma PromptStringInjective(cwd1: string, cwd2: string, user: string, host: string)
    requires cwd1 != [] && cwd2 != []
    requires PromptString(cwd1, user, host) == PromptString(cwd2, user, host)
    ensures cwd1 == cwd2
  {
    ParsePromptString(cwd1, user, host);
    ParsePromptString(cwd2, user, host);
  }

  /** The empty working directory and the root both show as `~`. */
  lemma EmptyAndRootCoincide(user: string, host: string)
    ensures PromptString("", user, host) == PromptString("/", user, host) == user + "@" + host + ":~$"
  {
  }

  /** Every path the command processor can move to comes back out of its prompt. */
  lemma WellFormedCwdRoundTrip(cwd: string, user: string, host: string)
    requires PathResolver.WellFormedPath(cwd)
    ensures ParsePrompt(PromptString(cwd, user, host), user, host) == Some(cwd)
  {
    ParsePromptString(cwd, user, host);
  }

  /** The default prompt at the root directory. */
  lemma DefaultPromptAtRoot()
    ensures DefaultPrompt("/") == DEFAULT_USER + "@" + DEFAULT_HOST + ":~$"
  {
  }
}
