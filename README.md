# Voice commands of a chat-style assistant app, modelled in Dafny

The app turns a spoken utterance, once transcribed, into a device action.
Two separate screens each handle utterances their own way:

- the chat screen (`App.jsx`) treats any utterance that contains "call", in
  any letter case, as a request to phone someone. It cuts the first "call"
  out of the utterance and trims the rest to get a name. It looks that name
  up in the contacts. Then it either dials `tel:<number>` and says
  "Calling {name}", says "{name} does not have a phone number.", or says
  "Contact {name} not found.". The screen also keeps a list of sent
  messages and the text field's content;
- the alarm screen (`components/setAlarm.jsx`) checks for the exact,
  case-sensitive phrase "set alarm" first and "open alarm" second. For
  "set alarm" it takes the leftmost time written as `H:MM` or `HH:MM` and
  opens an Android alarm intent with those hours and minutes. If no time is
  written, it alerts "Could not find a valid time in your command.". For
  "open alarm" it opens `clock://alarm`. On platforms other than Android
  neither URL is opened.

The two handlers are modelled as two independent classifiers. The alarm
screen is not mounted by the chat screen, so no utterance reaches both.

Modules:

- `Wrappers` (`wrappers.dfy`): `Option`.
- `Text` (`text.dfy`): the JavaScript string operations the handlers use.
  These are `toLowerCase` on ASCII letters, `includes`, `trim` over the
  ECMAScript whitespace and line-terminator characters, `split` on one
  character with its inverse `Join`, `Number` on digit strings, and the
  decimal rendering of a number.
- `App` (`app.dfy`): the call command as a pure function from the
  utterance and the way the contacts lookup settles (the list it resolves
  with, or a rejection) to an `Outcome`. An `Outcome` is `Ignored`,
  `LookupRejected` with the lookup query, or the lookup query with the
  sentence spoken and the optional dial URL. Also the `ChatScreen` class with the
  `messages` and `recognizedText` state.
- `AlarmScreen` (`alarm_screen.dfy`): the alarm command as a pure function
  from the utterance and `Platform.OS` to an `Effect`: `NoEffect`,
  `ShowAlert(message)` or `OpenUrl(url)`. The time search is a declarative
  "a time starts here" predicate plus a scanning function, and the scan is
  proved to return exactly the leftmost, greedy match of
  `/(\d{1,2}:\d{2})/`.

Behaviour worth noting:

- An utterance that is only "call" still looks up the empty name and
  speaks about it.
- "set alarm" and "open alarm" are matched case-sensitively. Only "call"
  is matched in any letter case.
- Hours and minutes are whatever the two digit groups say, from 0 to 99.
  Neither is range-checked against a clock.
- The two handlers are independent. An utterance with both "call" and
  "set alarm" is a call command on the chat screen and an alarm command on
  the alarm screen.
- A rejected contacts lookup ends the call handler silently: nothing is
  spoken and nothing is dialled.

## Model

| member | source | states |
|---|---|---|
| `App.CallDetectionAgrees` | App.jsx:119-120 | States what `App.IsCallCommand` means. An utterance is a call command iff some index starts "call" in any letter case. That holds iff the case-insensitive pattern finds a "call" to remove, and the one it finds is the first. |
| `App.FindCallFrom` | App.jsx:120 | The scan returns an index where "call" occurs in any case, with no such index before it. It returns none only when no index at or after the start qualifies. |
| `App.RemoveFirstCall` | App.jsx:120 | A non-call utterance is unchanged. A call utterance loses exactly four characters: the first case-insensitive "call" is cut out and the text on either side is kept. |
| `App.ContactQuery` | App.jsx:120 | The extracted name has no leading or trailing whitespace. For a call command it is strictly shorter than the utterance. |
| `App.ContactQueryCutsFirstCall` | App.jsx:120 | The name is the trimmed utterance with exactly the first case-insensitive "call" cut out and everything else kept. |
| `App.RecallIsACall` | App.jsx:119-120 | "recall Bob" is a call command, and the name looked up for it is "re Bob". |
| `App.StartCall` | App.jsx:137-140 | The dial URL is "tel:" followed by exactly the number: reading the number back from it gives the number. |
| `App.StartCallInjective` | App.jsx:137-140 | Different numbers give different dial URLs. |
| `App.HandleVoiceCommand` | App.jsx:118-135 | A non-call utterance leads to no lookup, no speech and no dial. A call utterance always looks up its extracted name. The handler stops silently exactly when that lookup rejects. The outcomes for a resolved lookup are stated by the three lemmas below. |
| `App.NoContactNotFound` | App.jsx:131-132 | An empty lookup result gives exactly the sentence "Contact {name} not found." and no dial. |
| `App.DialsFirstNumberOnly` | App.jsx:122-130 | With contacts found, a dial happens iff the first contact's first number exists and is non-empty. That number is the one dialled, with "Calling {name}" spoken. Otherwise "{name} does not have a phone number." is spoken. |
| `App.OnlyFirstNumberConsulted` | App.jsx:122-123 | Two non-empty lookup results that agree on the first contact's first number give the same outcome, whatever the stored names and other contacts. |
| `App.SpokenNameIsQuery` | App.jsx:124-132 | For a resolved lookup, the outcome is one of the three sentences filled with the extracted name, never a contact's stored name. Only the "Calling" sentence comes with a dial. |
| `App.ChatScreen.constructor` | App.jsx:68-70 | The screen starts with no messages and an empty text field. |
| `App.ChatScreen.EditText` | App.jsx:176 | Typing replaces the field's text and leaves the messages alone. |
| `App.ChatScreen.OnSpeechResults` | App.jsx:92-97 | A transcript goes into the text field, the messages are unchanged, and the transcript is handled as a call command. |
| `App.ChatScreen.SendMessage` | App.jsx:143-148 | Non-empty text adds exactly one user message with that text at the end, keeps every earlier message, and clears the field. Empty text changes nothing. Every message on screen is a user message with text. |
| `Text.Lower` | App.jsx:119 | Lower-casing keeps the length, leaves no upper-case ASCII letter, and changes a character only by moving an upper-case ASCII letter to its lower-case form. |
| `Text.Trim` | App.jsx:120 | The trimmed string does not start or end with whitespace. It is an infix of the input, and everything outside that infix is whitespace. |
| `Text.TrimFixed` | App.jsx:120 | A string without surrounding whitespace is unchanged by trimming, so trimming twice is the same as trimming once. |
| `Text.Split` | components/setAlarm.jsx:59 | Splitting gives at least one piece, and no piece contains the separator. `Text.JoinSplit` and `Text.SplitOnce` state what the pieces are. |
| `Text.JoinSplit` | components/setAlarm.jsx:59 | Joining the pieces of `split` with the separator gives back the string. |
| `Text.SplitOnce` | components/setAlarm.jsx:59 | A string with exactly one separator splits into exactly its two sides. |
| `Text.NatToString` | components/setAlarm.jsx:62 | A number renders as at least one digit and only digits. It starts with '0' only when the number is 0, and 0 renders as exactly "0". `Text.DecimalValueOfNatToString` gives the round trip. |
| `Text.DecimalValueOfNatToString` | components/setAlarm.jsx:62 | Reading back the decimal rendering of a number gives the number. |
| `Text.DecimalValue` | components/setAlarm.jsx:59 | A group of n digits stands for a number below 10^n. `Text.DecimalValueOfNatToString` states that it inverts the rendering. |
| `AlarmScreen.TryAt` | components/setAlarm.jsx:46 | One attempt of the matcher at an index. When it succeeds, the 4 or 5 characters there are a time. It takes 4 only when 5 are not a time. It fails only when no time starts there. |
| `AlarmScreen.FindTimeFrom` | components/setAlarm.jsx:46 | The scan returns a time at or after the start, greedy at its index, with no time starting between the start and it. It returns none only when no time starts at or after the start. |
| `AlarmScreen.FindTime` | components/setAlarm.jsx:46-47 | A found time is the regular-expression match: leftmost and greedy. No time is found iff no index of the utterance starts a time. |
| `AlarmScreen.FindTimeIsRegexMatch` | components/setAlarm.jsx:46-48 | The scan returns a span iff that span is the leftmost, greedy match of `\d{1,2}:\d{2}`, so that match is unique. |
| `AlarmScreen.LeftmostInsideLongerNumber` | components/setAlarm.jsx:46-48 | In "123:45" the time found is "23:45", starting at index 1. |
| `AlarmScreen.MinutesTakeTwoDigits` | components/setAlarm.jsx:46-48 | In "7:305" the time found is "7:30". |
| `AlarmScreen.TimeTextSplits` | components/setAlarm.jsx:59 | Splitting a matched time on ':' gives exactly the 1–2 hour digits and the 2 minute digits. |
| `AlarmScreen.ParseTime` | components/setAlarm.jsx:59 | The hours and minutes read from a matched time are each below 100. |
| `AlarmScreen.ParseTimeRoundTrip` | components/setAlarm.jsx:59 | Any hours and minutes below 100, written with two digits each or with one hour digit, read back as themselves. No clock range is enforced and leading zeros are dropped. |
| `AlarmScreen.LeadingZerosDropped` | components/setAlarm.jsx:59 | "07:05" reads as 7 hours and 5 minutes. |
| `AlarmScreen.AlarmIntentUrl` | components/setAlarm.jsx:62 | The URL starts with the SET_ALARM intent prefix, which ends in `S.hours = `, and it is never the clock-app URL. Which slot holds which number is stated by `AlarmScreen.IntentTimeRoundTrip`. |
| `AlarmScreen.IntentTimeRoundTrip` | components/setAlarm.jsx:62 | Decoding the URL with `IntentTime` gives back exactly the time. `IntentTime` takes the hours from the digit run right after `S.hours = `. It takes the minutes from the digit run right after `; S.minutes = `, which must be followed by `;end` and nothing more. |
| `AlarmScreen.AlarmIntentUrlInjective` | components/setAlarm.jsx:62 | Different times give different intent URLs: no other time has the URL of a given time. |
| `AlarmScreen.SetAlarm` | components/setAlarm.jsx:58-69 | A URL is opened iff the platform is Android. That URL is not the clock-app URL. It is the intent URL of exactly the parsed time and of no other time. Nothing else happens. |
| `AlarmScreen.OpenAlarmApp` | components/setAlarm.jsx:71-81 | `clock://alarm` is opened iff the platform is Android. Otherwise nothing happens. |
| `AlarmScreen.ProcessCommand` | components/setAlarm.jsx:43-56 | A URL is opened only on Android. The only alert is the missing-time sentence, and only after "set alarm". An utterance with neither phrase does nothing, and on Android one with either phrase always does something. The lemmas below state each outcome exactly. |
| `AlarmScreen.AlertExactlyWithoutTime` | components/setAlarm.jsx:45-52 | The alert is shown iff "set alarm" occurs and no time occurs anywhere. It is always "Could not find a valid time in your command.". |
| `AlarmScreen.AlarmSetAtLeftmostTime` | components/setAlarm.jsx:45-62 | The alarm intent for a time is opened iff "set alarm" occurs, the platform is Android, and that time is read from the leftmost greedy match. |
| `AlarmScreen.ClockAppOnlyWithoutSetAlarm` | components/setAlarm.jsx:45-74 | `clock://alarm` is opened iff "open alarm" occurs, "set alarm" does not, and the platform is Android. So "set alarm" takes priority. |
| `AlarmScreen.NoEffectCases` | components/setAlarm.jsx:43-81 | Nothing happens iff neither phrase occurs, or the platform is not Android and no alert is due. In particular, an utterance with neither phrase gives no action and no alert. |
| `AlarmScreen.PhrasesAreCaseSensitive` | components/setAlarm.jsx:45-53 | "Set Alarm 7:30" takes neither branch and has no effect, even on Android. |
| `AlarmScreen.NoClockRangeCheck` | components/setAlarm.jsx:58-62 | "set alarm HH:MM" on Android opens the intent for exactly those hours and minutes, for any two-digit values up to 99:99. |

## Left out

- The speech-recognition, text-to-speech and contacts native modules are
  left out: listener registration, start, stop and destroy
  (App.jsx:72-115, components/setAlarm.jsx:10-41, 83-117). They are
  foreign, asynchronous and event-driven. The sentence that would be
  spoken and the URL that would be opened are returned as values instead.
- How the contacts lookup matches and orders contacts is left out. How it
  settles (the list it resolves with, or a rejection) is an input of
  `App.HandleVoiceCommand`.
- Permission requests (App.jsx:23-65, components/setAlarm.jsx:86-116) are
  left out. They are platform UI with no decision logic of their own.
- Whether opening a URL succeeds is left out, along with the
  "Failed to set alarm." and "Failed to open alarm app." alerts in the
  `catch` blocks. Opening is asynchronous, so those synchronous `catch`
  blocks do not react to its failure. Only the URL chosen is modelled.
- Console logging, JSX rendering, the listening indicator and styles are
  left out.
- `Text.Lower` lower-cases ASCII letters only. No non-ASCII character
  lower-cases to "c", "a" or "l", so detecting "call" is unaffected.
- Strings are sequences of Unicode scalar values, not UTF-16 code units.
  The whitespace set of `Text.IsWhitespace` is written out explicitly.
- A phone entry's `number` is modelled as a string. A missing `number`
  field is modelled as the empty string, which JavaScript also treats as
  falsy.
- React's asynchronous state updates are left out. `SendMessage` reads the
  current list, not a possibly stale one captured by an earlier render.
- `AlarmScreen.ParseTime` applies `Number` only to digit groups, the only
  input it receives. `Number` on other strings is not modelled.
