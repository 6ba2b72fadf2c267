/** Commit authors and their display form (contributor.go). */
module Contributors {

  /** A commit author; either field may be empty. */
  datatype Contributor = Contributor(name: string, email: string)

  /** `Contributor.Name`: the stored name. */
  function Name(c: Contributor): (r: string)
    ensures r == c.name
  {
    c.name
  }

  /** `Contributor.Email`: the stored email. */
  function Email(c: Contributor): (r: string)
    ensures r == c.email
  {
    c.email
  }

  /** The getters lose nothing: rebuilding from them gives the same contributor. */
  lemma GettersRebuild(c: Contributor)
    ensures Contributor(Name(c), Email(c)) == c
  {
  }

  /**
   `Contributor.String`: `name <email>` when there is an email, otherwise the
   name alone. An empty name with an email keeps the space before `<`.
   */
  function Display(c: Contributor): (r: string)
    ensures c.email == "" ==> r == c.name
    ensures c.email != "" ==>
      && |r| == |c.name| + |c.email| + 3
      && r[..|c.name|] == c.name
      && r[|c.name|] == ' ' && r[|c.name| + 1] == '<'
      && r[|c.name| + 2..|r| - 1] == c.email
      && r[|r| - 1] == '>'
  {
    if Email(c) != "" then c.name + " <" + Email(c) + ">" else c.name
  }

  /** Position of the first `ch` in `s`, or `|s|` when there is none. */
  function FirstIndex(s: string, ch: char): (i: nat)
    ensures i <= |s|
    ensures forall k :: 0 <= k < i ==> s[k] != ch
    ensures i < |s| ==> s[i] == ch
    decreases |s|
  {
    if |s| == 0 then 0 else if s[0] == ch then 0 else 1 + FirstIndex(s[1..], ch)
  }

  /**
   Reads a display string back: splits at the first `<` when it is preceded
   by a space and the string ends with `>` after a non-empty email.
   */
  function ParseDisplay(s: string): (c: Contributor)
  {
    var i := FirstIndex(s, '<');
    if 1 <= i && i + 2 < |s| && s[i - 1] == ' ' && s[|s| - 1] == '>'
    then Contributor(s[..i - 1], s[i + 1..|s| - 1])
    else Contributor(s, "")
  }

  /** A contributor whose name has no `<` can be recovered from its display form. */
  lemma ParseDisplayRoundTrip(c: Contributor)
    requires '<' !in c.name
    ensures ParseDisplay(Display(c)) == c
  {
    var s := Display(c);
    if c.email != "" {
      var n := |c.name|;
      assert s[..n + 1] == c.name + " ";
      assert FirstIndex(s, '<') == n + 1;
      assert s[..n] == c.name;
    } else {
      assert FirstIndex(s, '<') == |s|;
    }
  }

  /** Without that restriction the display form is ambiguous. */
  lemma DisplayNotInjective()
    ensures Display(Contributor("a <b>", "")) == Display(Contributor("a", "b"))
  {
  }

  /** The four cases the display form distinguishes, as the tests list them. */
  lemma DisplayExamples()
    ensures Display(Contributor("", "")) == ""
    ensures Display(Contributor("", "email@email.ltd")) == " <email@email.ltd>"
    ensures Display(Contributor("test", "")) == "test"
    ensures Display(Contributor("test", "email@email.ltd")) == "test <email@email.ltd>"
  {
    assert "" + " <" + "email@email.ltd" + ">" == " <email@email.ltd>";
    assert "test" + " <" + "email@email.ltd" + ">" == "test <email@email.ltd>";
  }
}
