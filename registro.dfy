/** The registration form's checks (src/pages/registro.tsx). A missing form field is the
    empty string; the names and the e-mail are trimmed, the passwords are not. */
module Registro {
  import opened Text

  /** What the form shows: an error, or the success message. */
  datatype Result = Error(message: string) | Ok(message: string)

  const FillAll := "Por favor completa todos los campos."
  const BadEmail := "Correo inválido."
  const ShortPassword := "La contraseña debe tener al menos 6 caracteres."
  const Mismatch := "Las contraseñas no coinciden."
  const Created := "Cuenta creada correctamente. Redirigiendo al login…"

  /** `[^\s@]+`: a non-empty run without white space and without `@`. */
  predicate Chunk(s: string)
  {
    s != [] && forall k :: 0 <= k < |s| ==> !IsSpace(s[k]) && s[k] != '@'
  }

  /** The pattern `^[^\s@]+@[^\s@]+\.[^\s@]+$`, read as the strings it matches. */
  ghost predicate EmailPattern(e: string)
  {
    exists local: string, host: string, tld: string ::
      Chunk(local) && Chunk(host) && Chunk(tld) && e == local + "@" + host + "." + tld
  }

  /** The check the page runs: one `@`, no white space, something before the `@`, and
      after it a `.` that is neither the first nor the last character. */
  predicate EmailOk(e: string)
  {
    && (forall k :: 0 <= k < |e| ==> !IsSpace(e[k]))
    && exists a :: 0 < a < |e| && e[a] == '@'
        && (forall k :: 0 <= k < |e| && k != a ==> e[k] != '@')
        && exists d :: a + 1 < d < |e| - 1 && e[d] == '.'
  }

  /** The check accepts exactly the strings the pattern matches. */
  lemma EmailOkIffPattern(e: string)
    ensures EmailOk(e) <==> EmailPattern(e)
  {
    if EmailOk(e) {
      EmailOkMatchesPattern(e);
    }
    if EmailPattern(e) {
      PatternPassesEmailOk(e);
    }
  }

  /** A string the check accepts splits into the three chunks of the pattern. */
  lemma EmailOkMatchesPattern(e: string)
    requires EmailOk(e)
    ensures EmailPattern(e)
  {
    var a :| 0 < a < |e| && e[a] == '@'
      && (forall k :: 0 <= k < |e| && k != a ==> e[k] != '@')
      && exists d :: a + 1 < d < |e| - 1 && e[d] == '.';
    var d :| a + 1 < d < |e| - 1 && e[d] == '.';
    var local, host, tld := e[..a], e[a + 1..d], e[d + 1..];
    assert Chunk(local) by {
      forall k | 0 <= k < |local| ensures !IsSpace(local[k]) && local[k] != '@' {
        assert local[k] == e[k];
      }
    }
    assert Chunk(host) by {
      forall k | 0 <= k < |host| ensures !IsSpace(host[k]) && host[k] != '@' {
        assert host[k] == e[a + 1 + k];
      }
    }
    assert Chunk(tld) by {
      forall k | 0 <= k < |tld| ensures !IsSpace(tld[k]) && tld[k] != '@' {
        assert tld[k] == e[d + 1 + k];
      }
    }
    assert e == local + "@" + host + "." + tld;
  }

  /** A string the pattern matches passes the check, with its `@` after the first chunk
      and its `.` after the second. */
  lemma PatternPassesEmailOk(e: string)
    requires EmailPattern(e)
    ensures EmailOk(e)
  {
    var local, host, tld :| Chunk(local) && Chunk(host) && Chunk(tld)
      && e == local + "@" + host + "." + tld;
    var a := |local|;
    var d := |local| + 1 + |host|;
    forall k | 0 <= k < |e| ensures !IsSpace(e[k]) && (k != a ==> e[k] != '@') {
      if k < a {
        assert e[k] == local[k];
      } else if a < k < d {
        assert e[k] == host[k - a - 1];
      } else if k > d {
        assert e[k] == tld[k - d - 1];
      }
    }
    assert e[a] == '@' && e[d] == '.';
  }

  /** `handleSubmit`: the first check that fails sets its error; only when all pass is
      the success message set. */
  function Validate(nombre: string, apellido: string, email: string, pass: string, pass2: string): Result
  {
    var n := Trim(nombre);
    var a := Trim(apellido);
    var e := Trim(email);
    if n == "" || a == "" || e == "" || pass == "" || pass2 == "" then Error(FillAll)
    else if !EmailOk(e) then Error(BadEmail)
    else if Utf16Length(pass) < 6 then Error(ShortPassword)
    else if pass != pass2 then Error(Mismatch)
    else Ok(Created)
  }

  /** A name, surname or e-mail of white space only, or an empty password field, is a
      missing field, whatever the other fields hold. */
  lemma BlankFieldIsMissing(nombre: string, apellido: string, email: string, pass: string, pass2: string)
    requires Blank(nombre) || Blank(apellido) || Blank(email) || pass == "" || pass2 == ""
    ensures Validate(nombre, apellido, email, pass, pass2) == Error(FillAll)
  {
    TrimEmptyIffBlank(nombre);
    TrimEmptyIffBlank(apellido);
    TrimEmptyIffBlank(email);
  }

  /** Registration succeeds exactly when every field is filled, the trimmed e-mail
      matches the pattern, and the password has at least 6 UTF-16 code units and is repeated
      identically. */
  lemma OkIffAllChecksPass(nombre: string, apellido: string, email: string, pass: string, pass2: string)
    ensures Validate(nombre, apellido, email, pass, pass2).Ok?
      <==> && !Blank(nombre) && !Blank(apellido)
           && EmailPattern(Trim(email))
           && Utf16Length(pass) >= 6 && pass == pass2
  {
    TrimEmptyIffBlank(nombre);
    TrimEmptyIffBlank(apellido);
    TrimEmptyIffBlank(email);
    EmailOkIffPattern(Trim(email));
  }

  /** Each error implies that every earlier check passed. */
  lemma ChecksRunInOrder(nombre: string, apellido: string, email: string, pass: string, pass2: string)
    ensures var r := Validate(nombre, apellido, email, pass, pass2);
      && (r != Error(FillAll) ==> !Blank(nombre) && !Blank(apellido) && pass != "" && pass2 != "")
      && (r == Error(ShortPassword) || r == Error(Mismatch) ==> EmailPattern(Trim(email)))
      && (r == Error(Mismatch) ==> Utf16Length(pass) >= 6)
  {
    TrimEmptyIffBlank(nombre);
    TrimEmptyIffBlank(apellido);
    EmailOkIffPattern(Trim(email));
  }

  /** Passwords are not trimmed: six spaces are a valid password. */
  lemma SpacesCountTowardPassword(nombre: string, apellido: string, email: string)
    requires !Blank(nombre) && !Blank(apellido) && EmailPattern(Trim(email))
    ensures Validate(nombre, apellido, email, "      ", "      ") == Ok(Created)
  {
    TrimEmptyIffBlank(nombre);
    TrimEmptyIffBlank(apellido);
    EmailOkIffPattern(Trim(email));
  }

  /** The length check counts UTF-16 code units, as `pass.length` does: three characters
      outside the Basic Multilingual Plane make a password of length 6, while three
      characters inside it are too short. */
  lemma AstralCharsCountTwice(nombre: string, apellido: string, email: string)
    requires !Blank(nombre) && !Blank(apellido) && EmailPattern(Trim(email))
    ensures Validate(nombre, apellido, email, "\U{1F600}\U{1F600}\U{1F600}", "\U{1F600}\U{1F600}\U{1F600}") == Ok(Created)
    ensures Validate(nombre, apellido, email, "abc", "abc") == Error(ShortPassword)
  {
    TrimEmptyIffBlank(nombre);
    TrimEmptyIffBlank(apellido);
    EmailOkIffPattern(Trim(email));
    Utf16LengthOfThree();
  }

  /** Three astral characters are six code units; three Basic Latin letters are three. */
  lemma Utf16LengthOfThree()
    ensures Utf16Length("\U{1F600}\U{1F600}\U{1F600}") == 6
    ensures Utf16Length("abc") == 3
  {
    var p := "\U{1F600}\U{1F600}\U{1F600}";
    assert p[1..][1..][1..] == [];
    var q := "abc";
    assert q[1..][1..][1..] == [];
  }
}
