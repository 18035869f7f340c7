/**
 * The input schemas of the web app: secret and project procedures and the
 * organisation creation form. Lengths count characters; character classes
 * are the ASCII ones.
 */
module WebValidators {
  import opened Wrappers
  import opened Text
  import Environment

  const MaxKeyLength := 100
  const MaxNameLength := 100
  const MaxSlugLength := 50
  const MaxDescriptionLength := 500

  /** `[a-zA-Z0-9_]`. */
  predicate IsKeyChar(c: char) {
    IsAsciiLetter(c) || IsDigit(c) || c == '_'
  }

  /** `[a-zA-Z0-9\s\-_]`. */
  predicate IsNameChar(c: char) {
    IsAsciiLetter(c) || IsDigit(c) || IsAsciiSpace(c) || c == '-' || c == '_'
  }

  /** `[a-z0-9-]`. */
  predicate IsSlugChar(c: char) {
    IsAsciiLower(c) || IsDigit(c) || c == '-'
  }

  /** `[a-z0-9]`. */
  predicate IsSlugEdge(c: char) {
    IsAsciiLower(c) || IsDigit(c)
  }

  predicate AllChars(s: string, ok: char -> bool) {
    forall i :: 0 <= i < |s| ==> ok(s[i])
  }

  /** `min(1).max(n).regex(/^[class]+$/)`. */
  predicate Bounded(s: string, maxLength: nat, ok: char -> bool) {
    1 <= |s| <= maxLength && AllChars(s, ok)
  }

  predicate ValidDescription(d: string) {
    |d| <= MaxDescriptionLength
  }

  predicate ValidSecretKey(k: string) {
    Bounded(k, MaxKeyLength, IsKeyChar)
  }

  /** Project and organisation names share one rule. */
  predicate ValidName(n: string) {
    Bounded(n, MaxNameLength, IsNameChar)
  }

  /** The characters a regular-expression `.` does not match: LF, CR, LINE SEPARATOR, PARAGRAPH SEPARATOR. */
  predicate IsLineTerminator(c: char) {
    c == '\n' || c == '\r' || c == '\U{2028}' || c == '\U{2029}'
  }

  /** The slug's second pattern as written: `^[a-z0-9].*[a-z0-9]$|^[a-z0-9]$`. */
  predicate SlugEdgesMatch(s: string) {
    || (|s| >= 2 && IsSlugEdge(s[0]) && IsSlugEdge(s[|s| - 1]) && forall i :: 1 <= i < |s| - 1 ==> !IsLineTerminator(s[i]))
    || (|s| == 1 && IsSlugEdge(s[0]))
  }

  /** The slug rule: length, then the two patterns. */
  predicate ValidSlug(s: string) {
    1 <= |s| <= MaxSlugLength && AllChars(s, IsSlugChar) && SlugEdgesMatch(s)
  }

  // ---- Procedure inputs ----

  /** A field an update may leave out (`undefined`) or set. */
  datatype Patch<T> = Keep | Put(value: T)

  datatype CreateSecretInput = CreateSecretInput(projectId: string, key: string, value: string,
                                                 description: Option<string>)

  /** `description` may be left out, set to null (`Put(None)`) or set to a string. */
  datatype UpdateSecretInput = UpdateSecretInput(id: string, key: Patch<string>, value: Patch<string>,
                                                 description: Patch<Option<string>>)

  datatype CreateProjectInput = CreateProjectInput(name: string, description: Option<string>, organisationId: string)

  datatype OrganisationInput = OrganisationInput(name: string, slug: string, description: Option<string>)

  predicate ValidCreateSecret(i: CreateSecretInput) {
    && i.projectId != ""
    && ValidSecretKey(i.key)
    && i.value != ""
    && (i.description.Some? ==> ValidDescription(i.description.value))
  }

  predicate ValidUpdateSecret(i: UpdateSecretInput) {
    && i.id != ""
    && (i.key.Put? ==> ValidSecretKey(i.key.value))
    && (i.value.Put? ==> i.value.value != "")
    && (i.description.Put? && i.description.value.Some? ==> ValidDescription(i.description.value.value))
  }

  predicate ValidDeleteSecret(id: string) { id != "" }

  predicate ValidListSecrets(projectId: string) { projectId != "" }

  predicate ValidCreateProject(i: CreateProjectInput) {
    && ValidName(i.name)
    && (i.description.Some? ==> ValidDescription(i.description.value))
    && i.organisationId != ""
  }

  predicate ValidOrganisation(i: OrganisationInput) {
    && ValidName(i.name)
    && ValidSlug(i.slug)
    && (i.description.Some? ==> ValidDescription(i.description.value))
  }

  // ---- Properties ----

  /**
   * A slug is valid exactly when it has 1 to 50 characters from [a-z0-9-]
   * and starts and ends with a letter or digit.
   */
  lemma SlugCharacterisation(s: string)
    ensures ValidSlug(s) <==>
      1 <= |s| <= MaxSlugLength && AllChars(s, IsSlugChar) && IsSlugEdge(s[0]) && IsSlugEdge(s[|s| - 1])
  {
    if 1 <= |s| && AllChars(s, IsSlugChar) {
      assert forall i :: 0 <= i < |s| ==> !IsLineTerminator(s[i]) by {
        forall i | 0 <= i < |s| ensures !IsLineTerminator(s[i]) {
          assert IsSlugChar(s[i]);
        }
      }
    }
  }

  lemma SlugExamples()
    ensures ValidSlug("a--b")
    ensures !ValidSlug("-")
    ensures ValidSlug("a")
    ensures !ValidSlug("a-")
    ensures !ValidSlug("")
    ensures !ValidSlug("Acme")
  {
    SlugCharacterisation("a--b");
    SlugCharacterisation("a-");
    assert !IsSlugChar("Acme"[0]);
  }

  /** Every valid secret key is also a valid name; the converse fails on spaces and hyphens. */
  lemma KeysAreNames(k: string)
    requires ValidSecretKey(k)
    ensures ValidName(k)
  {
  }

  lemma NameNotKey()
    ensures ValidName("my project") && !ValidSecretKey("my project")
  {
    assert !IsKeyChar("my project"[2]);
  }

  /**
   * A key the web app accepts reaches the child process under its upper-case
   * spelling, with one '_' in front when it starts with a digit: no character
   * is replaced.
   */
  lemma WebKeysSanitiseToUpperCase(k: string)
    requires ValidSecretKey(k)
    ensures Environment.SanitiseEnvKey(k) == (if IsDigit(k[0]) then "_" else "") + UpperCase(k)
  {
    var u := UpperCase(k);
    forall i | 0 <= i < |k| ensures Environment.IsEnvChar(u[i]) {
      assert IsKeyChar(k[i]);
    }
    assert Environment.ReplaceInvalid(u) == u;
  }
}
