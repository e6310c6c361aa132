/** What the form components share: the `formData` / `errors` / `apiError`
    state, `handleChange`, and the e-mail pattern. */
module Forms {
  import opened Common
  import opened Strings

  /** A form's fields, or its error messages, by field name. */
  type Fields = map<string, string>

  /** A field's text; an absent field reads as "" (both are falsy). */
  function Get(values: Fields, key: string): string
  {
    if key in values then values[key] else ""
  }

  /** `/\S+@\S+\.\S+/` matches with its "@" at `at` and its "." at `dot`:
      a non-space just before the "@", only non-spaces (at least one)
      between the "@" and the ".", and a non-space just after the ".". */
  predicate EmailAt(s: string, at: int, dot: int)
  {
    && 1 <= at && at + 1 < dot && dot + 1 < |s|
    && s[at] == '@' && s[dot] == '.'
    && !IsSpace(s[at - 1]) && !IsSpace(s[dot + 1])
    && forall k :: at < k < dot ==> !IsSpace(s[k])
  }

  /** `/\S+@\S+\.\S+/.test(s)`; the pattern is not anchored, so the match
      may sit anywhere in the string. */
  predicate EmailLike(s: string)
  {
    exists at, dot :: 0 <= at < |s| && 0 <= dot < |s| && EmailAt(s, at, dot)
  }

  /** A match needs an "@", a later ".", and at least five characters. */
  lemma EmailLikeNeeds(s: string)
    requires EmailLike(s)
    ensures '@' in s && '.' in s && |s| >= 5
  {
    var at, dot :| 0 <= at < |s| && 0 <= dot < |s| && EmailAt(s, at, dot);
    assert s[at] in s && s[dot] in s;
  }

  /** A match inside `s` is a match at the shifted position of any string
      holding `s` at offset `n`. */
  lemma EmailAtShifted(s: string, t: string, n: nat, at: int, dot: int)
    requires n + |s| <= |t| && t[n..n + |s|] == s
    requires 0 <= at < |s| && 0 <= dot < |s| && EmailAt(s, at, dot)
    ensures EmailAt(t, n + at, n + dot)
  {
    assert forall k :: 0 <= k < |s| ==> t[n + k] == s[k];
    forall k | n + at < k < n + dot ensures !IsSpace(t[k]) {
      assert t[n + (k - n)] == s[k - n];
    }
  }

  /** Text around a match does not stop it matching: "see a@b.co now" passes. */
  lemma EmailLikeUnanchored(prefix: string, s: string, suffix: string)
    requires EmailLike(s)
    ensures EmailLike(prefix + s + suffix)
  {
    var at, dot :| 0 <= at < |s| && 0 <= dot < |s| && EmailAt(s, at, dot);
    var t := prefix + s + suffix;
    var n := |prefix|;
    assert t[n..n + |s|] == s;
    EmailAtShifted(s, t, n, at, dot);
    assert 0 <= n + at < |t| && 0 <= n + dot < |t|;
  }

  lemma EmailExamples()
    ensures EmailLike("a@b.c")
    ensures !EmailLike("a@b")
    ensures !EmailLike("")
  {
    assert EmailAt("a@b.c", 1, 3);
    assert 0 <= 1 < |"a@b.c"| && 0 <= 3 < |"a@b.c"|;
    if EmailLike("a@b") {
      EmailLikeNeeds("a@b");
    }
  }

  /** One form's state. */
  class FormState {
    var values: Fields
    var errors: Fields
    var apiError: string

    constructor (values: Fields)
      ensures this.values == values && errors == map[] && apiError == ""
    {
      this.values := values;
      errors := map[];
      apiError := "";
    }

    /** `handleChange`: store the value, blank that field's message if one
        is shown (the key stays, with ""), and clear the API error. */
    method HandleChange(name: string, value: string)
      modifies this
      ensures values == old(values)[name := value]
      ensures errors == if Get(old(errors), name) != "" then old(errors)[name := ""] else old(errors)
      ensures Get(errors, name) == "" && forall k :: k != name ==> Get(errors, k) == Get(old(errors), k)
      ensures apiError == ""
    {
      values := values[name := value];
      if Get(errors, name) != "" {
        errors := errors[name := ""];
      }
      apiError := "";
    }

    /** `setErrors(newErrors)`. */
    method SetErrors(e: Fields)
      modifies this
      ensures errors == e && values == old(values) && apiError == old(apiError)
    {
      errors := e;
    }

    /** `setFormData(next)`. */
    method SetValues(v: Fields)
      modifies this
      ensures values == v && errors == old(errors) && apiError == old(apiError)
    {
      values := v;
    }

    method SetApiError(m: string)
      modifies this
      ensures apiError == m && values == old(values) && errors == old(errors)
    {
      apiError := m;
    }
  }
}
