/**
 * The page controller of the demo page: the dynamic-card and profile
 * counters, the cards and profiles on the page, the notification log, the
 * prompts shown, the navbar's `scrolled` class, the math demo results and
 * the current-section lookup. Timers are not modelled: every delayed
 * update (fade-outs, removal after 300 ms, the first two demo cards after
 * 2 s) happens at once.
 */
module PageController {
  import opened Wrappers
  import opened Text
  import opened JsValues
  import opened ProfileUtils
  import MathUtils

  /** The `type` argument of `showNotification`. */
  datatype NoteKind = SuccessNote | ErrorNote | InfoNote

  datatype Notification = Notification(message: string, kind: NoteKind)

  const CardCreated: string := "\U{2728} Card created successfully!"
  const CardDeleted: string := "\U{1F5D1}\U{FE0F} Card deleted"
  const NameEmpty: string := "\U{274C} Name cannot be empty!"
  const RoleEmpty: string := "\U{274C} Role cannot be empty!"
  const MathDone: string := "\U{1F9EE} Math calculations completed!"
  const NamePrompt: string := "Enter the person's name:"
  const RolePrompt: string := "Enter their role:"

  function ProfileAdded(name: string): string {
    "\U{1F464} " + name + " added to the team!"
  }

  function ProfileRemoved(name: string): string {
    "\U{1F44B} " + name + " removed from team"
  }

  /** A dynamic card: its number and the creation time it prints. */
  datatype DynamicCard = DynamicCard(number: nat, createdAt: string)

  /** The card's heading. */
  function CardTitle(n: nat): string {
    "Dynamic Card #" + NatToString(n)
  }

  /** Different card numbers give different headings. */
  lemma CardTitleInjective(m: nat, n: nat)
    requires m != n
    ensures CardTitle(m) != CardTitle(n)
  {
    var prefix := "Dynamic Card #";
    if CardTitle(m) == CardTitle(n) {
      assert CardTitle(m)[|prefix|..] == NatToString(m);
      assert CardTitle(n)[|prefix|..] == NatToString(n);
      NatToStringInjective(m, n);
    }
  }

  /** The heading is the fixed prefix followed by the card number, which reads back. */
  lemma CardTitleReadsBack(n: nat)
    ensures CardTitle(n)[..14] == "Dynamic Card #"
    ensures ParseNat(CardTitle(n)[14..]) == n
  {
    assert CardTitle(n)[14..] == NatToString(n);
    ParseNatToString(n);
  }

  /** Card numbers strictly increase along the container. */
  ghost predicate NumbersIncrease(cards: seq<DynamicCard>) {
    forall i, j :: 0 <= i < j < |cards| ==> cards[i].number < cards[j].number
  }

  /** Every card on the page has a heading no other card has. */
  lemma TitlesDistinct(cards: seq<DynamicCard>)
    requires NumbersIncrease(cards)
    ensures forall i, j :: 0 <= i < j < |cards| ==> CardTitle(cards[i].number) != CardTitle(cards[j].number)
  {
    forall i, j | 0 <= i < j < |cards|
      ensures CardTitle(cards[i].number) != CardTitle(cards[j].number)
    {
      CardTitleInjective(cards[i].number, cards[j].number);
    }
  }

  /** `element.remove()` on the k-th child: the others stay, in order. */
  function RemoveAt<T>(s: seq<T>, k: nat): (r: seq<T>)
    requires k < |s|
    ensures |r| == |s| - 1
    ensures forall i :: 0 <= i < k ==> r[i] == s[i]
    ensures forall i :: k <= i < |r| ==> r[i] == s[i + 1]
  {
    s[..k] + s[k + 1..]
  }

  /** Removal keeps the numbers increasing, and the removed number is gone. */
  lemma RemoveKeepsOrder(cards: seq<DynamicCard>, k: nat)
    requires k < |cards| && NumbersIncrease(cards)
    ensures NumbersIncrease(RemoveAt(cards, k))
    ensures forall c :: c in RemoveAt(cards, k) ==> c.number != cards[k].number
  {
    var r := RemoveAt(cards, k);
    forall i, j | 0 <= i < j < |r|
      ensures r[i].number < r[j].number
    {
      var i', j' := if i < k then i else i + 1, if j < k then j else j + 1;
      assert r[i] == cards[i'] && r[j] == cards[j'];
    }
    forall c | c in r
      ensures c.number != cards[k].number
    {
      var i :| 0 <= i < |r| && r[i] == c;
      assert c == cards[if i < k then i else i + 1];
    }
  }

  /** Profile ids are numbers from 1 to `counter`, increasing along the container. */
  ghost predicate IdsIncrease(profiles: seq<ProfileCardView>, counter: nat) {
    && (forall i :: 0 <= i < |profiles| ==>
          profiles[i].profile.id.Num? && 1.0 <= profiles[i].profile.id.n <= counter as real)
    && (forall i, j :: 0 <= i < j < |profiles| ==> profiles[i].profile.id.n < profiles[j].profile.id.n)
  }

  /** A card with the next id can be appended; no card on the page had that id. */
  lemma AppendNextId(profiles: seq<ProfileCardView>, counter: nat, card: ProfileCardView)
    requires IdsIncrease(profiles, counter)
    requires card.profile.id == Num((counter + 1) as real)
    ensures IdsIncrease(profiles + [card], counter + 1)
    ensures forall i :: 0 <= i < |profiles| ==> profiles[i].profile.id != card.profile.id
  {
  }

  /** Removing one profile keeps the ids in range and increasing. */
  lemma RemoveKeepsIds(profiles: seq<ProfileCardView>, counter: nat, k: nat)
    requires IdsIncrease(profiles, counter) && k < |profiles|
    ensures IdsIncrease(RemoveAt(profiles, k), counter)
  {
    var r := RemoveAt(profiles, k);
    forall i, j | 0 <= i < j < |r|
      ensures r[i].profile.id.n < r[j].profile.id.n
    {
      var i', j' := if i < k then i else i + 1, if j < k then j else j + 1;
      assert r[i] == profiles[i'] && r[j] == profiles[j'];
    }
  }

  /** `!answer || answer.trim() === ''`: cancelled or blank. */
  predicate Blank(answer: Option<string>) {
    answer.None? || Trim(answer.value) == []
  }

  /** An answer is blank exactly when the dialog was cancelled or the answer holds only whitespace. */
  lemma BlankIff(answer: Option<string>)
    ensures Blank(answer) <==> answer.None? || AllWhitespace(answer.value)
    ensures Blank(Some("")) && !Blank(Some(" Ada "))
  {
  }

  /** The object `addProfile` hands to `createProfileCard`, from the trimmed answers and the new counter. */
  function PromptedData(name: string, role: string, counter: nat): JsVal {
    Obj(map["name" := Str(name), "role" := Str(role), "id" := Num(counter as real)])
  }

  lemma PromptedDataFields(name: string, role: string, counter: nat)
    ensures var d := PromptedData(name, role, counter);
      && d.Obj?
      && Get(d, "name") == Str(name) && Get(d, "role") == Str(role)
      && Get(d, "id") == Num(counter as real) && Get(d, "avatar") == Undefined
      && Get(d, "email") == Undefined && Get(d, "department") == Undefined
      && Get(d, "skills") == Undefined
  {
  }

  /** The card `addProfile` appends: the trimmed name and role, the counter as id, an initials avatar, no skills. */
  function PromptedCard(name: string, role: string, counter: nat): ProfileCardView {
    ProfileCardView(
      Profile(name, role, Num(counter as real), Null, None, None, []),
      InitialsBadge(GenerateInitials(Str(name))),
      NoSkills)
  }

  /** With trimmed non-empty answers and a positive counter, `createProfileCard` cannot throw and builds exactly that card. */
  lemma PromptedCardCreated(name: string, role: string, counter: nat, now: real)
    requires name != [] && role != [] && Trim(name) == name && Trim(role) == role && counter >= 1
    ensures CreateProfileCard(PromptedData(name, role, counter), now) == Success(PromptedCard(name, role, counter))
  {
    PromptedDataFields(name, role, counter);
    ValidateSanitises(PromptedData(name, role, counter), now);
  }

  /** Any two non-blank answers, trimmed, with a positive id: `createProfileCard` cannot throw and returns the prompted card. */
  lemma PromptedAnswersCreated(name: string, role: string, counter: nat, now: real)
    requires Trim(name) != [] && Trim(role) != [] && counter >= 1
    ensures CreateProfileCard(PromptedData(Trim(name), Trim(role), counter), now)
         == Success(PromptedCard(Trim(name), Trim(role), counter))
  {
    TrimIdempotent(name);
    TrimIdempotent(role);
    PromptedCardCreated(Trim(name), Trim(role), counter, now);
  }

  /** A section element: its id, `offsetTop` and `offsetHeight`. */
  datatype Section = Section(id: string, top: real, height: real)

  /** `scrollPos >= sectionTop && scrollPos < sectionTop + sectionHeight` with `scrollPos = scrollY + 100`. */
  predicate InSection(s: Section, scrollY: real) {
    s.top <= scrollY + 100.0 < s.top + s.height
  }

  /** A section holds the position exactly when `scrollY` lies 100 pixels before its span; an empty section never does. */
  lemma InSectionWindow(s: Section, scrollY: real)
    ensures InSection(s, scrollY) <==> s.top - 100.0 <= scrollY < s.top + s.height - 100.0
    ensures s.height <= 0.0 ==> !InSection(s, scrollY)
  {
  }

  /** `getCurrentSection`: the first section the reading position falls in, or none. */
  method GetCurrentSection(sections: seq<Section>, scrollY: real) returns (r: Option<nat>)
    ensures r.Some? ==> r.value < |sections| && InSection(sections[r.value], scrollY)
    ensures r.Some? ==> forall j :: 0 <= j < r.value ==> !InSection(sections[j], scrollY)
    ensures r.None? <==> forall j :: 0 <= j < |sections| ==> !InSection(sections[j], scrollY)
  {
    for i := 0 to |sections|
      invariant forall j :: 0 <= j < i ==> !InSection(sections[j], scrollY)
    {
      if InSection(sections[i], scrollY) {
        return Some(i);
      }
    }
    return None;
  }

  /** The page state the controller reads and writes. */
  class Page {
    var cardCounter: nat
    var profileCounter: nat
    var cards: seq<DynamicCard>
    var profiles: seq<ProfileCardView>
    var notifications: seq<Notification>
    var prompts: seq<string>
    var navbarScrolled: bool
    var addResult: real
    var multiplyResult: real

    /**
     * Card numbers increase and never exceed the counter; profile ids are numbers from 1
     * to the profile counter, increasing along the container.
     */
    ghost predicate Valid()
      reads this`cards, this`cardCounter, this`profiles, this`profileCounter
    {
      && NumbersIncrease(cards)
      && (forall i :: 0 <= i < |cards| ==> 1 <= cards[i].number <= cardCounter)
      && IdsIncrease(profiles, profileCounter)
    }

    constructor()
      ensures Valid()
      ensures cardCounter == 0 && profileCounter == 0
      ensures cards == [] && profiles == [] && notifications == [] && prompts == []
      ensures !navbarScrolled
    {
      cardCounter := 0;
      profileCounter := 0;
      cards := [];
      profiles := [];
      notifications := [];
      prompts := [];
      navbarScrolled := false;
      addResult := 0.0;
      multiplyResult := 0.0;
    }

    /** `createDynamicCard`: bump the counter, append a card with the new number, report success. */
    method CreateDynamicCard(createdAt: string)
      requires Valid()
      modifies this`cardCounter, this`cards, this`notifications
      ensures Valid()
      ensures cardCounter == old(cardCounter) + 1
      ensures cards == old(cards) + [DynamicCard(cardCounter, createdAt)]
      ensures notifications == old(notifications) + [Notification(CardCreated, SuccessNote)]
    {
      cardCounter := cardCounter + 1;
      cards := cards + [DynamicCard(cardCounter, createdAt)];
      notifications := notifications + [Notification(CardCreated, SuccessNote)];
    }

    /** The `DOMContentLoaded` listener's demo: two cards, numbered one after the other. */
    method AddInitialCards(first: string, second: string)
      requires Valid()
      modifies this`cardCounter, this`cards, this`notifications
      ensures Valid()
      ensures cardCounter == old(cardCounter) + 2
      ensures cards == old(cards) + [DynamicCard(old(cardCounter) + 1, first), DynamicCard(old(cardCounter) + 2, second)]
      ensures notifications == old(notifications) + [Notification(CardCreated, SuccessNote), Notification(CardCreated, SuccessNote)]
    {
      CreateDynamicCard(first);
      CreateDynamicCard(second);
    }

    /** `deleteCard` on the button of card k: that card goes, the counter stays. */
    method DeleteCard(k: nat)
      requires Valid() && k < |cards|
      modifies this`cards, this`notifications
      ensures Valid()
      ensures cards == RemoveAt(old(cards), k)
      ensures forall c :: c in cards ==> c.number != old(cards)[k].number
      ensures notifications == old(notifications) + [Notification(CardDeleted, InfoNote)]
    {
      RemoveKeepsOrder(cards, k);
      cards := RemoveAt(cards, k);
      notifications := notifications + [Notification(CardDeleted, InfoNote)];
    }

    /**
     * `addProfile` with the answers the two prompts return (None for a cancelled prompt).
     * The role prompt is shown only after a non-blank name; the card holds the trimmed
     * answers, the notification quotes the name as typed.
     */
    method AddProfile(nameAnswer: Option<string>, roleAnswer: Option<string>, now: real)
      requires Valid()
      modifies this`prompts, this`notifications, this`profileCounter, this`profiles
      ensures Valid()
      ensures Blank(nameAnswer) ==> prompts == old(prompts) + [NamePrompt]
      ensures !Blank(nameAnswer) ==> prompts == old(prompts) + [NamePrompt, RolePrompt]
      ensures Blank(nameAnswer) ==> notifications == old(notifications) + [Notification(NameEmpty, ErrorNote)]
      ensures !Blank(nameAnswer) && Blank(roleAnswer) ==>
                notifications == old(notifications) + [Notification(RoleEmpty, ErrorNote)]
      ensures Blank(nameAnswer) || Blank(roleAnswer) ==>
                profileCounter == old(profileCounter) && profiles == old(profiles)
      ensures !Blank(nameAnswer) && !Blank(roleAnswer) ==>
                && profileCounter == old(profileCounter) + 1
                && profiles == old(profiles) + [PromptedCard(Trim(nameAnswer.value), Trim(roleAnswer.value), profileCounter)]
                && notifications == old(notifications) + [Notification(ProfileAdded(nameAnswer.value), SuccessNote)]
    {
      Prompt(NamePrompt);
      if Blank(nameAnswer) {
        ShowNotification(NameEmpty, ErrorNote);
        return;
      }
      Prompt(RolePrompt);
      if Blank(roleAnswer) {
        ShowNotification(RoleEmpty, ErrorNote);
        return;
      }
      AddAnsweredProfile(nameAnswer.value, Trim(nameAnswer.value), Trim(roleAnswer.value));
    }

    /**
     * The rest of `addProfile` once both answers are non-blank: bump the counter, append the
     * card `createProfileCard` returns for the trimmed answers and the new id (PromptedAnswersCreated:
     * that is the prompted card), and announce the name as typed.
     */
    method AddAnsweredProfile(typed: string, name: string, role: string)
      requires Valid()
      modifies this`notifications, this`profileCounter, this`profiles
      ensures Valid()
      ensures profileCounter == old(profileCounter) + 1
      ensures profiles == old(profiles) + [PromptedCard(name, role, profileCounter)]
      ensures notifications == old(notifications) + [Notification(ProfileAdded(typed), SuccessNote)]
    {
      AppendCard(PromptedCard(name, role, profileCounter + 1));
      notifications := notifications + [Notification(ProfileAdded(typed), SuccessNote)];
    }

    /** `showNotification(message, type)`: the toast is recorded in the order shown. */
    method ShowNotification(message: string, kind: NoteKind)
      requires Valid()
      modifies this`notifications
      ensures Valid()
      ensures notifications == old(notifications) + [Notification(message, kind)]
    {
      notifications := notifications + [Notification(message, kind)];
    }

    /** `prompt(question)`: the question is recorded; the answer is a parameter of the handler. */
    method Prompt(question: string)
      requires Valid()
      modifies this`prompts
      ensures Valid()
      ensures prompts == old(prompts) + [question]
    {
      prompts := prompts + [question];
    }

    /** Bumps the counter and appends a card that carries the new counter as its id. */
    method AppendCard(card: ProfileCardView)
      requires Valid() && card.profile.id == Num((profileCounter + 1) as real)
      modifies this`profileCounter, this`profiles
      ensures Valid()
      ensures profileCounter == old(profileCounter) + 1
      ensures profiles == old(profiles) + [card]
    {
      AppendNextId(profiles, profileCounter, card);
      profileCounter := profileCounter + 1;
      profiles := profiles + [card];
    }

    /** `removeProfile` on the button of profile k: that card goes, its name is reported. */
    method RemoveProfile(k: nat)
      requires Valid() && k < |profiles|
      modifies this`profiles, this`notifications
      ensures Valid()
      ensures profiles == RemoveAt(old(profiles), k)
      ensures notifications == old(notifications) + [Notification(ProfileRemoved(old(profiles)[k].profile.name), InfoNote)]
    {
      var name := profiles[k].profile.name;
      var rest := RemoveAt(profiles, k);
      RemoveKeepsIds(profiles, profileCounter, k);
      profiles := rest;
      notifications := notifications + [Notification(ProfileRemoved(name), InfoNote)];
    }

    /** The navbar part of the `scroll` listener. */
    method OnScroll(scrollY: real)
      modifies this`navbarScrolled
      ensures navbarScrolled <==> scrollY > 50.0
    {
      if scrollY > 50.0 {
        navbarScrolled := true;
      } else {
        navbarScrolled := false;
      }
    }

    /** `runMathDemo`: 15 + 25 and 8 × 7 through the math module, then a success notice. */
    method RunMathDemo()
      modifies this`addResult, this`multiplyResult, this`notifications
      ensures addResult == 40.0 && multiplyResult == 56.0
      ensures notifications == old(notifications) + [Notification(MathDone, SuccessNote)]
    {
      MathUtils.DemoValues();
      var sum := MathUtils.Add(Num(15.0), Num(25.0));
      var product := MathUtils.Multiply(Num(8.0), Num(7.0));
      addResult := sum.value;
      multiplyResult := product.value;
      notifications := notifications + [Notification(MathDone, SuccessNote)];
    }
  }
}
