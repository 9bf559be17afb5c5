/** The url-encoded forms the login and sign-up routes receive (`HashMap<String, String>`). */
module Forms {

  type Form = map<string, string>

  /** `form.get("email")` and `form.get("password")` are both present. */
  predicate HasLoginFields(form: Form)
  {
    "email" in form && "password" in form
  }

  /** `form.get("handle")`, `form.get("email")` and `form.get("password")` are all present. */
  predicate HasSignupFields(form: Form)
  {
    "handle" in form && "email" in form && "password" in form
  }
}
