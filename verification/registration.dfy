/**
 * The student registration page: the submit handler's checks on the form
 * fields, the reset on success, and the button that cycles the page theme.
 * Alerts are modelled as the sequence of messages shown; the DOM elements
 * the handlers read and write are fields of the classes below.
 */
module Registration {
  import opened Text

  /** The values of the five form inputs when the form is submitted. */
  datatype FormFields = FormFields(
    name: string,
    email: string,
    department: string,
    year: string,
    projectTitle: string)

  /** What the submit handler decides. */
  datatype Outcome = AllFieldsRequired | InvalidEmail | Registered

  /** The alert shown for each outcome. */
  function Message(o: Outcome): (r: string)
    ensures r != []
  {
    match o
    case AllFieldsRequired => "All fields must be filled!"
    case InvalidEmail => "Invalid email format!"
    case Registered => "Registration Successful"
  }

  const Welcome: string := "Welcome to the Advanced Student Registration Page!"

  /** The alert tells the outcomes apart, and none reads as the welcome. */
  lemma MessagesDistinct(o1: Outcome, o2: Outcome)
    ensures Message(o1) == Message(o2) <==> o1 == o2
    ensures Message(o1) != Welcome
  {
  }

  predicate NoSpace(s: string) {
    forall i :: 0 <= i < |s| ==> s[i] != ' '
  }

  predicate Lowercase(s: string) {
    forall i :: 0 <= i < |s| ==> 'a' <= s[i] <= 'z'
  }

  /**
   * `s` splits as X '@' Y '.' Z at the positions `at` and `dot`, with X and Y non-empty
   * and free of spaces, and Z two or three lower-case ASCII letters ending the string.
   */
  predicate SplitsAsEmail(s: string, at: int, dot: int) {
    && 0 < at && at + 1 < dot && dot < |s|
    && s[at] == '@' && s[dot] == '.'
    && NoSpace(s[..at]) && NoSpace(s[at + 1..dot])
    && 2 <= |s| - dot - 1 <= 3 && Lowercase(s[dot + 1..])
  }

  /** `/^[^ ]+@[^ ]+\.[a-z]{2,3}$/.test(s)`: some choice of the '@' and the '.' fits the pattern. */
  predicate EmailPattern(s: string) {
    exists at, dot | 0 < at < dot < |s| :: SplitsAsEmail(s, at, dot)
  }

  /** Some '@' sits in `s[1..limit]`. */
  predicate AtBefore(s: string, limit: int) {
    exists a | 1 <= a <= limit && a < |s| :: s[a] == '@'
  }

  /** `s` ends with a dot and `k` lower-case letters, with an '@' before that is neither first nor right before the dot. */
  predicate EndsAsAddress(s: string, k: int) {
    && 2 <= k <= 3 && k + 4 <= |s|
    && s[|s| - k - 1] == '.' && Lowercase(s[|s| - k..])
    && AtBefore(s, |s| - k - 3)
  }

  /** The same language described from the end: no space anywhere, and an address ending. */
  predicate EmailShape(s: string) {
    NoSpace(s) && (EndsAsAddress(s, 2) || EndsAsAddress(s, 3))
  }

  lemma NoSpaceSlice(s: string, i: int, j: int)
    requires NoSpace(s) && 0 <= i <= j <= |s|
    ensures NoSpace(s[i..j])
  {
    forall n | 0 <= n < j - i
      ensures s[i..j][n] != ' '
    {
      assert s[i..j][n] == s[i + n];
    }
  }

  lemma EmailPatternHasShape(s: string)
    requires EmailPattern(s)
    ensures EmailShape(s)
  {
    var at, dot :| 0 < at < dot < |s| && SplitsAsEmail(s, at, dot);
    var k := |s| - dot - 1;
    assert NoSpace(s) by {
      forall i | 0 <= i < |s|
        ensures s[i] != ' '
      {
        if i < at {
          assert s[i] == s[..at][i];
        } else if at < i < dot {
          assert s[i] == s[at + 1..dot][i - at - 1];
        } else if i > dot {
          assert s[i] == s[dot + 1..][i - dot - 1];
        }
      }
    }
    assert s[|s| - k..] == s[dot + 1..];
    assert s[at] == '@';
    assert EndsAsAddress(s, k);
  }

  lemma EmailShapeHasPattern(s: string)
    requires EmailShape(s)
    ensures EmailPattern(s)
  {
    var k := if EndsAsAddress(s, 2) then 2 else 3;
    var a :| 1 <= a <= |s| - k - 3 && a < |s| && s[a] == '@';
    var dot := |s| - k - 1;
    assert s[dot + 1..] == s[|s| - k..];
    NoSpaceSlice(s, 0, a);
    NoSpaceSlice(s, a + 1, dot);
    assert s[..a] == s[0..a];
    assert SplitsAsEmail(s, a, dot);
  }

  /** The pattern and the shape accept exactly the same strings. */
  lemma EmailPatternIffShape(s: string)
    ensures EmailPattern(s) <==> EmailShape(s)
  {
    if EmailPattern(s) {
      EmailPatternHasShape(s);
    }
    if EmailShape(s) {
      EmailShapeHasPattern(s);
    }
  }

  /** "abc@com" has no dot after the '@', so it is refused. */
  lemma NoDotRejected()
    ensures !EmailPattern("abc@com")
  {
    var s := "abc@com";
    assert s[4] != '.' && s[3] != '.';
    assert !EndsAsAddress(s, 2) && !EndsAsAddress(s, 3);
    EmailPatternIffShape(s);
  }

  /** "student@uni.edu" is accepted: the '@' at 7 and the '.' at 11. */
  lemma PlainAddressAccepted()
    ensures EmailPattern("student@uni.edu")
  {
    var s := "student@uni.edu";
    assert SplitsAsEmail(s, 7, 11) by {
      assert s[..7] == "student" && s[8..11] == "uni" && s[12..] == "edu";
    }
  }

  /** Whether every field is filled: three after trimming, the two selects as they are. */
  predicate AllFilled(f: FormFields) {
    Trim(f.name) != [] && Trim(f.email) != [] && f.department != [] && f.year != []
    && Trim(f.projectTitle) != []
  }

  /** The submit handler's decision: the empty-field check first, then the email pattern. */
  function Decide(f: FormFields): (r: Outcome)
    ensures r == AllFieldsRequired <==> !AllFilled(f)
    ensures r == InvalidEmail <==> AllFilled(f) && !EmailPattern(Trim(f.email))
    ensures r == Registered <==> AllFilled(f) && EmailPattern(Trim(f.email))
  {
    var name, email, projectTitle := Trim(f.name), Trim(f.email), Trim(f.projectTitle);
    if name == [] || email == [] || f.department == [] || f.year == [] || projectTitle == [] then
      AllFieldsRequired
    else if !EmailPattern(email) then
      InvalidEmail
    else
      Registered
  }

  /** A text field counts as filled exactly when it holds a non-whitespace character; a select when it is not empty. */
  lemma AllFilledIff(f: FormFields)
    ensures AllFilled(f) <==>
      !AllWhitespace(f.name) && !AllWhitespace(f.email) && !AllWhitespace(f.projectTitle)
      && f.department != [] && f.year != []
  {
  }

  /** An email of whitespace only reports the missing field, never the bad format. */
  lemma BlankEmailReportsMissingField(f: FormFields)
    requires AllWhitespace(f.email)
    ensures Decide(f) == AllFieldsRequired
  {
  }

  /** A registration is accepted only with an email that has the shape of an address. */
  lemma RegisteredHasEmailShape(f: FormFields)
    requires Decide(f) == Registered
    ensures EmailShape(Trim(f.email))
  {
    EmailPatternHasShape(Trim(f.email));
  }

  /** The department and year are not trimmed: a select holding a space counts as filled. */
  lemma SelectsNotTrimmed(f: FormFields)
    requires Trim(f.name) != [] && Trim(f.email) != [] && Trim(f.projectTitle) != []
    requires f.department == " " && f.year == " "
    ensures Decide(f) != AllFieldsRequired
  {
  }

  /** The `submit` event; the handler cancels its default action. */
  class SubmitEvent {
    var defaultPrevented: bool

    constructor()
      ensures !defaultPrevented
    {
      defaultPrevented := false;
    }
  }

  /** The registration page: the form's current values, the values `reset()` restores, and the alerts shown. */
  class RegistrationPage {
    var fields: FormFields
    const initial: FormFields
    var alerts: seq<string>

    constructor(initial: FormFields)
      ensures this.initial == initial && fields == initial && alerts == []
    {
      this.initial := initial;
      fields := initial;
      alerts := [];
    }

    /** The `load` listener: the welcome alert. */
    method Load()
      modifies this
      ensures alerts == old(alerts) + [Welcome]
      ensures fields == old(fields)
    {
      alerts := alerts + [Welcome];
    }

    /** The `submit` listener. */
    method Submit(e: SubmitEvent)
      modifies this, e
      ensures e.defaultPrevented
      ensures alerts == old(alerts) + [Message(Decide(old(fields)))]
      ensures Decide(old(fields)) == Registered ==> fields == initial
      ensures Decide(old(fields)) != Registered ==> fields == old(fields)
    {
      e.defaultPrevented := true;
      var outcome := Decide(fields);
      alerts := alerts + [Message(outcome)];
      if outcome == Registered {
        fields := initial;
      }
    }
  }

  const Colors: seq<string> := ["#ffcccc", "#ccffcc", "#ccccff", "#ffffcc"]

  /** `(colorIndex + 1) % colors.length`. */
  function NextIndex(i: nat): (r: nat)
    requires i < |Colors|
    ensures r < |Colors|
    ensures r == if i == |Colors| - 1 then 0 else i + 1
  {
    (i + 1) % |Colors|
  }

  /** The index after `n` clicks from the start. */
  function IndexAfter(n: nat): (r: nat)
    ensures r < |Colors|
  {
    if n == 0 then 0 else NextIndex(IndexAfter(n - 1))
  }

  /** The n-th click (from zero) shows colour n mod 4. */
  lemma {:induction false} IndexAfterIsMod(n: nat)
    ensures IndexAfter(n) == n % |Colors|
  {
    if n > 0 {
      IndexAfterIsMod(n - 1);
    }
  }

  /** Four clicks bring the index back to where it was. */
  lemma FourClicksCycle(i: nat)
    requires i < |Colors|
    ensures NextIndex(NextIndex(NextIndex(NextIndex(i)))) == i
  {
  }

  /** The theme button with the state its handler reads and writes. */
  class ThemeButton {
    var colorIndex: nat
    var bodyColor: string
    var heading: string
    ghost var clicks: nat

    ghost predicate Valid()
      reads this
    {
      colorIndex == clicks % |Colors|
    }

    constructor(bodyColor: string, heading: string)
      ensures Valid() && clicks == 0 && colorIndex == 0
      ensures this.bodyColor == bodyColor && this.heading == heading
    {
      colorIndex := 0;
      clicks := 0;
      this.bodyColor := bodyColor;
      this.heading := heading;
    }

    /** The `click` listener: paint with the current colour, then advance. */
    method Click()
      requires Valid()
      modifies this
      ensures Valid() && clicks == old(clicks) + 1
      ensures bodyColor == Colors[old(clicks) % |Colors|]
      ensures heading == "Theme Color Changed to " + bodyColor
      ensures colorIndex == NextIndex(old(colorIndex))
    {
      bodyColor := Colors[colorIndex];
      heading := "Theme Color Changed to " + Colors[colorIndex];
      colorIndex := (colorIndex + 1) % |Colors|;
      clicks := clicks + 1;
    }
  }
}
