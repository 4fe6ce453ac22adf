/** The sign-in screen's translation of authentication error messages
    into Portuguese. */
module SignInErrors {

  /** Shown for every message the table does not know. */
  const Fallback := "Erro ao realizar login"

  /** The messages the screen translates, with their translations. */
  const Translations: map<string, string> := map[
    "Invalid login credentials" := "Email ou senha incorretos",
    "Email not confirmed" := "Por favor, confirme seu email antes de entrar",
    "Email not found" := "Email não cadastrado",
    "Password should be at least 6 characters" := "A senha deve ter pelo menos 6 caracteres",
    "Email should be a valid email" := "Email inválido"
  ]

  /** `getErrorMessage`: the translation of a known message, the fallback
      for any other. */
  function GetErrorMessage(error: string): (r: string)
    ensures error in Translations ==> r == Translations[error]
    ensures error !in Translations ==> r == Fallback
    ensures r != ""
  {
    if error == "Invalid login credentials" then "Email ou senha incorretos"
    else if error == "Email not confirmed" then "Por favor, confirme seu email antes de entrar"
    else if error == "Email not found" then "Email não cadastrado"
    else if error == "Password should be at least 6 characters" then "A senha deve ter pelo menos 6 caracteres"
    else if error == "Email should be a valid email" then "Email inválido"
    else Fallback
  }

  /** Distinct known messages get distinct translations, and none of them
      reads like the fallback: from the text shown, the user can tell which
      error occurred. */
  lemma TranslationsAreDistinct(a: string, b: string)
    requires a in Translations && b in Translations && a != b
    ensures GetErrorMessage(a) != GetErrorMessage(b)
    ensures GetErrorMessage(a) != Fallback
  {
  }
}
