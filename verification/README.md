# Profile cards, math utilities, registration form and page controller

This project models the logic of a small browser demo. It has four parts:

- **Profile utilities** (`day4/profileUtils.js`):
  - `generateInitials`, `validateProfileData`, the skill-badge rule and `createProfileCard`'s derived data;
  - bulk creation with `createMultipleProfileCards`;
  - the in-place `searchProfileCards`.
- **Math utilities** (`day4/mathUtils.js`):
  - the argument guards of every export, in the order they are checked;
  - the values of `add`, `subtract`, `multiply`, `max`, `min`, `isEven`, `isOdd` and the `factorial` loop.
- **Registration page** (`script.js`):
  - the submit handler: the empty-field check, the email pattern and the reset on success;
  - the welcome alert;
  - the theme button that cycles four colours.
- **Page controller** (`day4/main.js`):
  - the dynamic-card and profile counters, and the containers they fill;
  - `addProfile` with its two prompts, `deleteCard` and `removeProfile`;
  - the math demo, the notification log;
  - the navbar threshold and `getCurrentSection`.

The modules are:

| module | file | what it holds |
|---|---|---|
| `Wrappers` | `wrappers.dfy` | `Option` and `Result`. A thrown `Error` is a `Failure` carrying the error. |
| `JsValues` | `js_values.dfy` | Loosely typed JavaScript values (`JsVal`), truthiness and property reads. |
| `Text` | `text.dfy` | `trim` over the ECMAScript whitespace set, ASCII case mapping, `split(' ')` and word filtering, `includes`, `lastIndexOf`, and decimal rendering. |
| `MathUtils` | `math_utils.dfy` | `mathUtils.js`. |
| `ProfileUtils` | `profile_utils.dfy` | `profileUtils.js`. |
| `Registration` | `registration.dfy` | `script.js`. |
| `PageController` | `page_controller.dfy` | `main.js`. |

How the model represents things:

- **Numbers** are exact reals (`JsVal.Num(n: real)`). This keeps `Number.isInteger` meaningful, so the integer guards of `isEven`, `isOdd` and `factorial` can reject something.
- **Functions that return a float** keep only their guards: `divide`, `power`, `sqrt`, `round`, `average` and `randomBetween`.
- **Time.** The clock (`Date.now()`) and the printed creation time are parameters.
- **Prompts.** A prompt's answer is an `Option<string>` parameter, with `None` for a cancelled dialog.
- **Alerts, prompts shown and notifications** are logs that the methods append to.
- **DOM state** that the scripts write in place is held in classes with `modifies` clauses:
  - the form fields;
  - the colour index;
  - the card and profile containers;
  - the navbar class;
  - the display flag of each searched card (an `array`).

## Model

| member | source | states |
|---|---|---|
| Text.Trim | day4/profileUtils.js:33 | The trimmed string is empty exactly when the input is all whitespace. Otherwise it starts and ends with non-whitespace. |
| Text.TrimDropsWhitespace | day4/profileUtils.js:65-66 | What `trim` keeps is one contiguous part of the input, with only whitespace dropped on each side. |
| Text.TrimIdempotent | day4/main.js:189 | Trimming twice is the same as trimming once. |
| Text.NonEmpty | day4/profileUtils.js:33 | The word filter keeps only non-empty pieces, so runs of spaces never give an empty word. |
| Text.Split | day4/profileUtils.js:33 | `split(' ')` gives at least one piece, and exactly one when the text has no space. |
| Text.SplitLast | day4/profileUtils.js:40 | The last piece of a split is the text after the last separator. |
| Text.LastWord | day4/profileUtils.js:40 | A text with an inner space and none at its ends has two or more words, and the last one follows the last space. |
| Text.FirstWord | day4/profileUtils.js:36 | Without a leading space, the first word starts with the first character. |
| Text.SplitPiecesFree | day4/profileUtils.js:33 | No piece of `split(d)` contains `d`. |
| Text.SplitJoin | day4/profileUtils.js:33 | Joining the pieces of `split(d)` with `d` gives the text back, so splitting loses nothing. |
| Text.NonEmptyAppend | day4/profileUtils.js:33 | The word filter distributes over concatenation, so it keeps order and multiplicity. |
| Text.NonEmptyMembers | day4/profileUtils.js:33 | A piece survives the filter exactly when it is non-empty. |
| Text.WordsMembers | day4/profileUtils.js:33 | The words are exactly the non-empty pieces between spaces, and no word holds a space. |
| Text.SingleWord | day4/profileUtils.js:35-36 | A text without a space is exactly one word. |
| Text.UpperChar | day4/profileUtils.js:36-40 | `toUpperCase` maps a lower-case ASCII letter to the upper-case letter that lower-cases back to it, and leaves every other character alone. |
| Text.ToLower | day4/profileUtils.js:420-422 | Same length. No upper-case ASCII letter is left. Every other character is kept, and each upper-case letter becomes the letter that upper-cases back to it. |
| Text.ToLowerSlice | day4/profileUtils.js:420-422 | Lower-casing a slice gives the slice of the lower-cased text. |
| Text.ContainsSlice | day4/profileUtils.js:424-435 | `includes` finds every slice of the text. |
| Text.ContainsLonger | day4/profileUtils.js:424-435 | A needle longer than the text is never found. |
| Text.ToLowerIdempotent | day4/profileUtils.js:420-422 | Lower-casing twice is lower-casing once. |
| Text.ContainsEmpty | day4/profileUtils.js:428 | Every string contains the empty string. |
| Text.ParseNatToString | day4/main.js:146 | The decimal rendering of a counter reads back as that counter. |
| Text.NatToStringInjective | day4/main.js:146 | Different counters print differently. |
| JsValues.FalsyValues | day4/profileUtils.js:31 | `!v` holds exactly for `undefined`, `null`, `false`, `0` and `""`. |
| JsValues.ObjectGuard | day4/profileUtils.js:49 | Arrays and objects are always truthy, so `!v` never rejects one, and neither `null` nor `undefined` counts as an object. |
| JsValues.GetAfterSet | day4/profileUtils.js:398-401 | A property written into an object reads back, and every other property reads as before. |
| MathUtils.Add | day4/mathUtils.js:9-14 | Fails exactly when an argument is not a number, with "Both parameters must be numbers". Otherwise the result minus `b` is `a`. |
| MathUtils.Subtract | day4/mathUtils.js:35-40 | The same type guard. Otherwise the result plus `b` is `a`. |
| MathUtils.Multiply | day4/mathUtils.js:22-27 | Fails exactly when an argument is not a number. Otherwise the result divided by a non-zero `b` is `a`, and a zero `b` gives 0. |
| MathUtils.SubtractUndoesAdd | day4/mathUtils.js:13 | `subtract(add(a, b), b) == a`. |
| MathUtils.MultiplyCommutes | day4/mathUtils.js:26 | `multiply(a, b) == multiply(b, a)`, errors included. |
| MathUtils.DemoValues | day4/main.js:248-249 | `add(15, 25)` is 40 and `multiply(8, 7)` is 56. |
| MathUtils.Divide | day4/mathUtils.js:49-57 | The type guard first, with its message. Then it fails exactly when the divisor is 0, and then always with "Division by zero is not allowed". |
| MathUtils.Power | day4/mathUtils.js:65-70 | Fails exactly when an argument is not a number. |
| MathUtils.Sqrt | day4/mathUtils.js:78-86 | A non-number gives "Parameter must be a number". A number fails exactly when it is negative, with "Cannot calculate square root of negative number". |
| MathUtils.Round | day4/mathUtils.js:140-149 | An absent `decimals` is 0. The type guard first, then it fails exactly on negative decimal places. |
| MathUtils.RandomBetween | day4/mathUtils.js:157-165 | The type guard first, then it fails exactly when `min > max`. |
| MathUtils.TypeGuardFirst | day4/mathUtils.js:10-12 | A non-number argument gives the type error in every two-argument function, before any domain check. |
| MathUtils.ArrayGuard | day4/mathUtils.js:94-99 | A non-array or empty array gives "Parameter must be a non-empty array". Otherwise it fails exactly when some element is not a number, and then always with "All array elements must be numbers". On success it yields the elements' values. |
| MathUtils.MaxOf | day4/mathUtils.js:100 | The maximum is an element, and no element exceeds it. |
| MathUtils.MinOf | day4/mathUtils.js:115 | The minimum is an element, and it exceeds no element. |
| MathUtils.Max | day4/mathUtils.js:93-101 | The array guards, in order. On success the result is one of the numbers and at least every number. |
| MathUtils.Min | day4/mathUtils.js:108-116 | The array guards, in order. On success the result is one of the numbers and at most every number. |
| MathUtils.Average | day4/mathUtils.js:123-132 | Fails exactly as the shared array guards do, with the same error. |
| MathUtils.EmptyBeforeElementCheck | day4/mathUtils.js:124-129 | An empty or non-array input reports the empty-array error in `max`, `min` and `average`, never the element error. |
| MathUtils.ElementCheckAfterEmpty | day4/mathUtils.js:94-99 | A non-empty array holding a non-number reports the element error in `max`, `min` and `average`. |
| MathUtils.IsEven | day4/mathUtils.js:172-177 | Fails exactly on a non-integer, with "Parameter must be an integer". Otherwise it is true exactly when the number is twice an integer. Negative numbers are included, where JavaScript's `%` truncates. |
| MathUtils.IsOdd | day4/mathUtils.js:184-189 | Fails exactly on a non-integer. |
| MathUtils.OddIsNotEven | day4/mathUtils.js:176-188 | `isEven` and `isOdd` reject the same inputs. Otherwise `isOdd(n) == !isEven(n)`. |
| MathUtils.FactPositive | day4/mathUtils.js:200-205 | The product 1·2·…·n is at least 1. |
| MathUtils.Factorial | day4/mathUtils.js:196-206 | Fails exactly on a negative or non-integer input, with "Parameter must be a non-negative integer". Otherwise the loop returns n!, which is at least 1. |
| ProfileUtils.OptionalText | day4/profileUtils.js:69-70 | Present exactly for a non-empty string, and then trimmed. |
| ProfileUtils.KeepSkills | day4/profileUtils.js:71 | Keeps at most the input's elements, each with non-blank trimmed content. |
| ProfileUtils.KeepSkillsMembership | day4/profileUtils.js:71 | A skill is kept exactly when it occurs as a non-blank string. Kept skills are not trimmed. |
| ProfileUtils.Sanitise | day4/profileUtils.js:64-72 | The returned literal is well formed, and its name and role are the trimmed inputs. |
| ProfileUtils.ValidateProfileData | day4/profileUtils.js:48-73 | The checks in order: not an object, then the name, then the role. On success the name and role are the trimmed, non-empty inputs, and the skills are non-blank. |
| ProfileUtils.ValidateOptionalFields | day4/profileUtils.js:67-71 | A truthy `id` is kept, otherwise the clock is used. A falsy `avatar` becomes null. A truthy `avatar` is kept as it is. `email`/`department` are null unless they are non-empty strings, and are trimmed otherwise. An array `skills` keeps its non-blank strings; a non-array gives `[]`. |
| ProfileUtils.ValidateRequiredOnly | day4/profileUtils.js:64-72 | An object with only a non-blank name and role validates to the trimmed pair, the clock as id, null optional fields and no skills. |
| ProfileUtils.ValidateSanitises | day4/profileUtils.js:64-72 | Once both required fields pass, the result is the sanitised object literal. |
| ProfileUtils.BlankEmailKeptEmpty | day4/profileUtils.js:69 | An all-whitespace email is truthy, so it is kept as the empty string rather than null. |
| ProfileUtils.KeepSkillsAppend | day4/profileUtils.js:71 | The skill filter distributes over concatenation: kept skills stay in input order, and each occurrence is kept or dropped on its own. |
| ProfileUtils.KeepSkillsOfKept | day4/profileUtils.js:71 | Filtering already-kept skills again keeps all of them. |
| ProfileUtils.ValidateIdempotent | day4/profileUtils.js:48-73 | Re-validating a validated profile, written back as an object, gives the same profile. This needs a truthy id and no optional text trimmed to empty. |
| ProfileUtils.ValidatedIsFixpoint | day4/profileUtils.js:48-73 | Every validation result with a truthy id and no empty optional text is such a fixpoint. |
| ProfileUtils.InitialsOf | day4/profileUtils.js:33-40 | One or two characters, and "??" for an empty name. |
| ProfileUtils.GenerateInitials | day4/profileUtils.js:30-41 | One or two characters. "??" for a non-string, empty or whitespace-only name. |
| ProfileUtils.InitialsOfOneWord | day4/profileUtils.js:35-37 | A single word gives its first character, upper-cased. |
| ProfileUtils.InitialsOfTwoWords | day4/profileUtils.js:40 | Two or more words give the first character and the character after the last space, upper-cased. |
| ProfileUtils.InitialsOneWord | day4/profileUtils.js:30-37 | A name whose trimmed form has no space gives its first non-whitespace character, upper-cased. |
| ProfileUtils.InitialsTwoWords | day4/profileUtils.js:30-40 | A name whose trimmed form has a space gives the upper-cased first letters of its first and last words. |
| ProfileUtils.InitialsOfFullName | day4/profileUtils.js:30-40 | "first last" gives the upper-cased initials of both names. |
| ProfileUtils.InitialsOfJaneDoe | day4/profileUtils.js:28 | "Jane Doe" gives "JD". |
| ProfileUtils.InitialsFallback | day4/profileUtils.js:31-34 | "", "   ", null and a number all give "??". |
| ProfileUtils.SkillsDisplay | day4/profileUtils.js:98-104 | No badges exactly when there are no skills. Otherwise it shows the first min(3, n) skills in order, plus an overflow count exactly when n > 3. Shown plus overflow is n. |
| ProfileUtils.OverflowLabelReadsBack | day4/profileUtils.js:103 | The overflow badge is "+" followed by the decimal hidden count, which reads back as that count. |
| ProfileUtils.FiveSkillsExample | day4/profileUtils.js:98-104 | Five skills show three badges and "+2". |
| ProfileUtils.CreateProfileCard | day4/profileUtils.js:80-125 | Fails exactly when validation fails, with the same error. The card holds the validated profile. It shows the image exactly when `avatar` is truthy, and otherwise the initials `generateInitials` gives for the validated name. Its skill badges are the badge rule applied to the validated skills. |
| ProfileUtils.Successes | day4/profileUtils.js:406 | The kept values come from successes, and there are no more of them than attempts. |
| ProfileUtils.CreateMultipleProfileCards | day4/profileUtils.js:391-407 | Fails exactly on a non-array, with "Input must be an array of profile objects". Otherwise it returns at most one card per element. |
| ProfileUtils.SuccessIndicesCount | day4/profileUtils.js:396-406 | One kept position per card. |
| ProfileUtils.SuccessIndicesOrdered | day4/profileUtils.js:396-406 | Kept positions are in range and strictly increasing, so input order is kept. |
| ProfileUtils.SuccessIndicesProduce | day4/profileUtils.js:396-406 | The k-th card is the success at the k-th kept position. |
| ProfileUtils.OmittedAreFailures | day4/profileUtils.js:402-406 | Every position not kept held a failure. |
| ProfileUtils.BulkCharacterised | day4/profileUtils.js:391-407 | The result is exactly the cards of the elements that produced one, in input order. Every other element was refused. |
| ProfileUtils.CardProfileId | day4/profileUtils.js:67 | A card's id is the input's truthy id, or else the clock. |
| ProfileUtils.SpreadKeepsOtherFields | day4/profileUtils.js:398-401 | The spread copies every property other than `id` unchanged. |
| ProfileUtils.OwnIdKeepsElement | day4/profileUtils.js:398-401 | An element with its own truthy id is passed to `createProfileCard` as it is. |
| ProfileUtils.CardAtRefuses | day4/profileUtils.js:396-405 | A `null` or `undefined` element is refused with the property-read error, and every element that is not a plain object is refused. |
| ProfileUtils.DefaultIdRead | day4/profileUtils.js:398-401 | The spread element's id is its own truthy id, or else the clock plus the index. |
| ProfileUtils.DefaultIdIsClockPlusIndex | day4/profileUtils.js:400 | An element without a truthy id that yields a card gets the clock plus its index as id. |
| ProfileUtils.Shown | day4/profileUtils.js:437-442 | The display becomes `block` exactly for a matching card and `none` otherwise. Nothing else changes. |
| ProfileUtils.SearchResultExact | day4/profileUtils.js:415-446 | Every returned card is shown and matches. A card is returned exactly when it matches. |
| ProfileUtils.EmptyTermShowsAll | day4/profileUtils.js:420-434 | An empty term matches every card, so all of them are returned. |
| ProfileUtils.MatchesOtherField | day4/profileUtils.js:424-435 | Any field other than "name" and "role" searches both, as the `default` branch does. |
| ProfileUtils.MatchesPartOfName | day4/profileUtils.js:420-432 | Searching for any part of a card's name finds the card, by name and over all fields. |
| ProfileUtils.MatchesIgnoresTermCase | day4/profileUtils.js:422 | Lower-casing the term does not change the match. |
| ProfileUtils.SearchProfileCards | day4/profileUtils.js:415-446 | The loop sets every card's display by the matching rule. It returns exactly the matching cards, in document order. |
| Registration.Message | script.js:17-27 | Every outcome has a non-empty alert text. |
| Registration.MessagesDistinct | script.js:3-27 | Different outcomes give different alerts, and no outcome's alert is the welcome text. |
| Registration.EmailPatternIffShape | script.js:21 | `^[^ ]+@[^ ]+\.[a-z]{2,3}$` accepts exactly the strings that have no space and end in `.` plus 2–3 lower-case letters, with an '@' before that is neither first nor right before the dot. |
| Registration.EmailPatternHasShape | script.js:21 | Any string the pattern accepts has that shape. |
| Registration.EmailShapeHasPattern | script.js:21 | Any string of that shape is accepted by the pattern. |
| Registration.NoDotRejected | script.js:21-22 | "abc@com" is rejected. |
| Registration.PlainAddressAccepted | script.js:21-22 | "student@uni.edu" is accepted. |
| Registration.Decide | script.js:10-27 | "All fields must be filled!" exactly when a trimmed text field or a select is empty. "Invalid email format!" exactly when all are filled and the trimmed email fails the pattern. Success exactly otherwise. |
| Registration.AllFilledIff | script.js:10-16 | The three trimmed text fields count as filled exactly when they hold a non-whitespace character; the two selects when they are not empty. |
| Registration.BlankEmailReportsMissingField | script.js:16-18 | An all-whitespace email reports the missing field, not the bad format. |
| Registration.RegisteredHasEmailShape | script.js:21-27 | A successful registration has an email of the address shape. |
| Registration.SelectsNotTrimmed | script.js:12-13 | The department and year are not trimmed, so a select holding a space counts as filled. |
| Registration.SubmitEvent.constructor | script.js:7-8 | A fresh submit event has its default action not yet prevented. |
| Registration.RegistrationPage.Load | script.js:2-4 | The welcome alert is appended, and the form is unchanged. |
| Registration.RegistrationPage.Submit | script.js:7-29 | The default action is prevented. Exactly one alert is appended: the outcome's message. The fields are reset to their initial values only on success, and unchanged otherwise. |
| Registration.NextIndex | script.js:39 | The index stays in [0, 4) and advances by one, wrapping to 0 after the last colour. |
| Registration.IndexAfterIsMod | script.js:34-39 | After n clicks from the start the index is n mod 4. |
| Registration.FourClicksCycle | script.js:39 | Four clicks bring the index back to where it was. |
| Registration.ThemeButton.Click | script.js:36-40 | The body colour and the heading use the colour before advancing. The index becomes the next one, and stays the click count mod 4. |
| PageController.CardTitleInjective | day4/main.js:146 | Different card numbers give different headings. |
| PageController.CardTitleReadsBack | day4/main.js:146 | The heading is "Dynamic Card #" followed by the card number, which reads back. |
| PageController.TitlesDistinct | day4/main.js:140-146 | With increasing card numbers, no two cards on the page share a heading. |
| PageController.RemoveAt | day4/main.js:181 | Removing the k-th element keeps the others, in order. |
| PageController.RemoveKeepsOrder | day4/main.js:176-184 | Removing a card keeps the numbers increasing, and the removed number is gone. |
| PageController.AppendNextId | day4/main.js:200-213 | A card with id counter+1 can be appended with the ids still increasing and in range, and no card already had that id. |
| PageController.RemoveKeepsIds | day4/main.js:226-238 | Removing a profile keeps the ids increasing and in range. |
| PageController.BlankIff | day4/main.js:188-196 | An answer is refused exactly when the dialog was cancelled or the answer holds only whitespace. "" is refused and " Ada " is not. |
| PageController.PromptedDataFields | day4/main.js:203-207 | The object handed to `createProfileCard` has exactly the name, role and id, and no other field. |
| PageController.PromptedCardCreated | day4/main.js:200-207 | For trimmed non-empty answers and a positive counter, `createProfileCard` cannot throw and builds the prompted card. |
| PageController.PromptedAnswersCreated | day4/main.js:189-207 | For any two non-blank answers, `createProfileCard` on the trimmed answers and the new id returns the prompted card. |
| PageController.InSectionWindow | day4/main.js:423-429 | A section holds the position exactly when `scrollY` lies in its span shifted up by 100. An empty section never does. |
| PageController.GetCurrentSection | day4/main.js:421-434 | Returns the first section with `top <= scrollY + 100 < top + height`, or none exactly when no section qualifies. |
| PageController.Page.constructor | day4/main.js:6-7 | Both counters start at 0, and the containers and logs are empty. |
| PageController.Page.CreateDynamicCard | day4/main.js:139-173 | The counter grows by one. One card with the new number is appended, with one success notification. Card numbers stay increasing and never exceed the counter. |
| PageController.Page.AddInitialCards | day4/main.js:42-45 | The page's two demo cards are numbered one after the other. |
| PageController.Page.DeleteCard | day4/main.js:176-184 | Exactly that card is removed and the others stay in order. The counter is untouched. One info notification follows. |
| PageController.Page.AddProfile | day4/main.js:187-223 | A blank or cancelled name gives the name error, without the role prompt. A blank role gives the role error. In both cases the counter and the profiles are unchanged. Otherwise the counter grows by one, the card with the trimmed answers and the new id is appended, and the name as typed is announced. |
| PageController.Page.AddAnsweredProfile | day4/main.js:200-222 | Once both answers pass: counter + 1, the prompted card appended, the success notification. The ids stay increasing. |
| PageController.Page.ShowNotification | day4/main.js:298-302 | The notification is appended to the log. |
| PageController.Page.Prompt | day4/main.js:188 | The question is appended to the log of prompts shown. |
| PageController.Page.AppendCard | day4/main.js:200-213 | The counter grows by one and the card with that id is appended. The ids stay increasing and in range. |
| PageController.Page.RemoveProfile | day4/main.js:226-238 | Exactly that profile is removed and the others stay in order. Its name is announced, and the ids stay increasing. |
| PageController.Page.OnScroll | day4/main.js:80-84 | The navbar has `scrolled` exactly when `scrollY > 50`. |
| PageController.Page.RunMathDemo | day4/main.js:241-261 | The two results are 40 and 56, and one success notification follows. |

## Left out

- HTML and CSS generation is left out, as presentation only:
  - the card templates, `addProfileCardStyles` and the hover and selection listeners;
  - `createSimpleProfileCard` and `updateProfileCard`'s DOM writes;
  - the parallax transforms.

  The interpolated strings are not escaped in the original. The model does not represent markup, so it cannot state this.
- Randomness is left out: the avatar gradient, `getRandomColor`, `randomBetween`'s value, and `greetUser` and `showGreetingDemo`, whose greeting depends on the hour of day and a random emoji.
- The clock and locale time formatting are parameters.
- Floating-point values are left out: the results of `divide`, `power`, `sqrt`, `round`, `average` and `randomBetween`, and `MATH_CONSTANTS`. Only their guards are modelled.
- Numbers are exact reals: IEEE rounding, `NaN` and the infinities are not represented.
  - MathUtils.Factorial returns an unbounded integer. It does not lose precision above 2^53 as the original does.
  - The math module's numbers are reals rather than integers, because its integer guards need a non-integer to reject.
- Timers are left out. Fade-outs, the 300 ms removal delay, the 2 s delay before the demo cards, the 3 s notification dismissal and the loader are all applied at once and in program order.
- Browser services are left out:
  - `alert` and `prompt` are logs and parameters;
  - `window.open`, `scrollIntoView`, `IntersectionObserver` and the keydown section navigation;
  - `updateActiveNavLink`, `initNavigation`'s smooth scrolling and the `window.*` handler registration.
- Text is simplified:
  - case mapping is ASCII only. Full Unicode `toUpperCase` can lengthen a character ('ß' becomes "SS"), which the model does not capture;
  - `charAt` works on characters, not UTF-16 code units;
  - `trim` uses the ECMAScript whitespace and line-terminator set, written out.
- `createMultipleProfileCards` logs each refused element with `console.error`. The model does not keep that log. A refused element is a `Failure` at its index, dropped by the filter.
- In `searchProfileCards`, a card whose `.profile-name` or `.profile-role` element is missing reads as the empty string. The model takes those two strings as given.
- PageController.Page.AddProfile does not call `createProfileCard` in its body. It appends the card that PageController.PromptedAnswersCreated proves `createProfileCard` returns for those answers.
- ProfileUtils.GenerateInitials: the one-or-two-character result holds only under the ASCII case mapping. In the original, "ßa ßb" gives the four characters "SSSS".
- ProfileUtils.InitialsOf: the same ASCII-only bound on its length.
- ProfileUtils.GenerateInitials: "??" is not claimed to mean failure. A name such as "? ?" also yields "??".
