/** Personalising the caption: literal replacement of the `{name}` token. */
module Caption {
  import opened Text

  const Placeholder: string := "{name}"

  /** `template.replace("{name}", name)`: scanning left to right, each occurrence of the token is
      replaced and scanning resumes after it, so occurrences never overlap and the inserted name is
      never scanned again. Putting the token back in place of itself changes nothing. */
  function Personalize(template: string, name: string): (r: string)
    ensures name == Placeholder ==> r == template
    decreases |template|
  {
    if |template| < |Placeholder| then template
    else if template[..|Placeholder|] == Placeholder then name + Personalize(template[|Placeholder|..], name)
    else [template[0]] + Personalize(template[1..], name)
  }

  /** A suffix of text without the token does not contain it either. */
  lemma NoPlaceholderInTail(a: string)
    requires |a| > 0 && !Contains(a, Placeholder)
    ensures !Contains(a[1..], Placeholder)
  {
    forall i: nat | i <= |a[1..]| && OccursAt(a[1..], Placeholder, i)
      ensures false
    {
      var inTail, inWhole := a[1..][i..i + |Placeholder|], a[i + 1..i + 1 + |Placeholder|];
      assert forall k :: 0 <= k < |inTail| ==> inTail[k] == inWhole[k];
      assert inTail == inWhole;
      assert OccursAt(a, Placeholder, i + 1);
    }
  }

  /** A template without the token comes back unchanged. */
  lemma {:induction false} PersonalizeWithoutPlaceholder(template: string, name: string)
    requires !Contains(template, Placeholder)
    ensures Personalize(template, name) == template
    decreases |template|
  {
    if |template| >= |Placeholder| {
      assert !OccursAt(template, Placeholder, 0);
      NoPlaceholderInTail(template);
      PersonalizeWithoutPlaceholder(template[1..], name);
    }
  }

  /** Text that opens with a non-empty token-free prefix does not open with the token: the token
      would either lie within the prefix or have its opening brace at a later position of the
      appended token. */
  lemma NoPlaceholderAtStart(a: string, rest: string)
    requires 0 < |a| && !Contains(a, Placeholder) && |a| + |rest| >= |Placeholder|
    requires |a| < |Placeholder| ==> 0 < |rest| && rest[0] == '{'
    ensures (a + rest)[..|Placeholder|] != Placeholder
  {
    var s := a + rest;
    if |a| >= |Placeholder| {
      assert s[..|Placeholder|] == a[..|Placeholder|];
      assert !OccursAt(a, Placeholder, 0);
    } else {
      assert s[|a|] == '{';
      assert Placeholder[|a|] != '{';
    }
  }

  /** Where the first token starts after a token-free prefix `a`, the prefix is kept, the token
      becomes the name, and replacement carries on in what follows. */
  lemma {:induction false} PersonalizeAtPlaceholder(a: string, b: string, name: string)
    requires !Contains(a, Placeholder)
    ensures Personalize(a + (Placeholder + b), name) == a + (name + Personalize(b, name))
    decreases |a|
  {
    var rest := Placeholder + b;
    var s := a + rest;
    if |a| == 0 {
      assert s == rest;
      assert rest[..|Placeholder|] == Placeholder;
      assert rest[|Placeholder|..] == b;
    } else {
      assert rest[0] == '{';
      NoPlaceholderAtStart(a, rest);
      NoPlaceholderInTail(a);
      PersonalizeAtPlaceholder(a[1..], b, name);
      assert s[1..] == a[1..] + rest;
      assert s == [a[0]] + (a[1..] + rest);
    }
  }

  /** The worked example: "Hi {name}!" for "Alex" reads "Hi Alex!". */
  lemma PersonalizeExample(template: string, name: string)
    requires template == "Hi {name}!" && name == "Alex"
    ensures Personalize(template, name) == "Hi Alex!"
  {
    assert !Contains("Hi ", Placeholder);
    assert !OccursAt("!", Placeholder, 0);
    PersonalizeAtPlaceholder("Hi ", "!", name);
    assert template == "Hi " + (Placeholder + "!");
  }
}
