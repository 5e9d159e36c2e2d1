/** The mock login screen (the `Login` component): handleLogin calls the
    parent's onLogin callback when `email && password` holds. */
module Gate {
  import Text

  /** JavaScript truthiness of a string: only "" is falsy. */
  predicate Truthy(s: string) {
    s != ""
  }

  /** The condition `email && password` of handleLogin. */
  predicate Accepts(email: string, password: string) {
    Truthy(email) && Truthy(password)
  }

  /** The gate checks emptiness only: any two non-empty strings pass, and an
      empty one in either field stops it. */
  lemma AcceptsIffNonEmpty(email: string, password: string)
    ensures Accepts(email, password) <==> |email| > 0 && |password| > 0
  {
  }

  /** Nothing is trimmed: credentials made only of blanks are accepted,
      although trimming them would leave "". */
  lemma BlankCredentialsAccepted(email: string, password: string)
    requires email != "" && password != ""
    requires Text.AllWs(email) && Text.AllWs(password)
    ensures Accepts(email, password)
    ensures Text.Trim(email) == "" && Text.Trim(password) == ""
  {
  }
}
