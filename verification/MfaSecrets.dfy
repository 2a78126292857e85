/** How a second-factor secret is kept at rest, under any cipher that undoes itself. */
module MfaSecrets {
  import opened Options

  datatype Cipher = Cipher(encrypt: (string, string) -> string, decrypt: (string, string) -> string)

  ghost predicate Inverts(c: Cipher) { forall x, salt :: c.decrypt(c.encrypt(x, salt), salt) == x }

  const PREFIX := "v1:"

  predicate IsProtected(s: string) { PREFIX <= s }

  function Protect(c: Cipher, secret: string, salt: string): string {
    PREFIX + salt + ":" + c.encrypt(secret, salt)
  }

  datatype Cut = Cut(before: string, after: string)

  /** The text around the first colon. */
  function CutAtColon(s: string): Option<Cut> {
    if s == "" then None
    else if s[0] == ':' then Some(Cut("", s[1..]))
    else
      match CutAtColon(s[1..])
      case None => None
      case Some(cut) => Some(Cut([s[0]] + cut.before, cut.after))
  }

  /** None when a text that claims to be protected does not have its three parts. */
  function Reveal(c: Cipher, s: string): Option<string> {
    if !IsProtected(s) then Some(s)
    else
      match CutAtColon(s[|PREFIX|..])
      case None => None
      case Some(cut) => Some(c.decrypt(cut.after, cut.before))
  }

  lemma {:induction false} CutFinds(a: string, b: string)
    requires ':' !in a
    ensures CutAtColon(a + ":" + b) == Some(Cut(a, b))
  {
    if a == "" {
      assert a + ":" + b == [':'] + b;
    } else {
      assert (a + ":" + b)[1..] == a[1..] + ":" + b;
      assert (a + ":" + b)[0] == a[0];
      CutFinds(a[1..], b);
      assert [a[0]] + a[1..] == a;
    }
  }

  lemma {:induction false} CutFails(s: string)
    ensures CutAtColon(s).None? <==> ':' !in s
  {
    if s != "" {
      CutFails(s[1..]);
      assert s == [s[0]] + s[1..];
    }
  }

  /** A protected secret is revealed, whatever colons the secret or its ciphertext contain. */
  lemma RevealUndoesProtect(c: Cipher, secret: string, salt: string)
    requires Inverts(c) && ':' !in salt
    ensures IsProtected(Protect(c, secret, salt))
    ensures Reveal(c, Protect(c, secret, salt)) == Some(secret)
  {
    assert Protect(c, secret, salt)[|PREFIX|..] == salt + ":" + c.encrypt(secret, salt);
    CutFinds(salt, c.encrypt(secret, salt));
  }

  /** Revealing fails on exactly the texts that carry the mark and no second colon. */
  lemma RevealFails(c: Cipher, s: string)
    ensures Reveal(c, s).None? <==> IsProtected(s) && ':' !in s[|PREFIX|..]
  {
    if IsProtected(s) {
      CutFails(s[|PREFIX|..]);
    }
  }
}
