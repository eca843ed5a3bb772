# BK Edits portfolio site: the UI state machines, in Dafny

The site is a single-page React front end for a video and photo editor:
a hero banner, a filterable video portfolio, a services list, a testimonial
carousel and a contact form under a fixed navigation bar. Almost all of it
is static copy and animation. This project models the small pieces of
state behind four components and proves what their event handlers
guarantee:

- `testimonials.dfy`, module `Testimonials`: the carousel. The cursor
  `currentIndex` moves over the four testimonials with the previous/next
  arrows and the indicator dots. JavaScript's truncating `%` is modelled
  explicitly (`JsRem`), so the `+ length` term in "previous" is seen to
  matter.
- `portfolio.dfy`, module `Portfolio`: the category filter over the seven
  portfolio items and the per-item play map that `toggleVideo` flips.
- `contact.dfy`, module `Contact`: the five-field form record, the change
  handler that overwrites the one field named by the event, the
  `isSubmitted` flag and the submit button derived from it.
- `navigation.dfy`, module `Navigation`: the `isScrolled` threshold and the
  mobile-menu flag, changed by the menu button, by clicks outside the bar
  and by navigation to a section.

Each component is a class whose fields are the component's React state.
Its methods are the event handlers. Where there is one, a method is
specified by a pure function (`NextIndex`, `PrevIndex`, `ToggleEntry`,
`WithField`, `MenuAfter`); the others state their new state directly. The
lemmas prove what the site relies on.

The browser facts a handler reads are plain parameters:

- the scroll offset;
- whether a click landed inside the `nav` element;
- which section elements the document holds. This is a set of ids; an
  element exists when its id is in the set.

## Model

| member | source | states |
|---|---|---|
| `Testimonials.JsRem` | src/components/Testimonials.tsx:54-58 | The `%` of JavaScript: for a non-negative dividend the result lies in `[0, b)`, for a negative one in `(-b, 0]`; a dividend already in range is returned unchanged |
| `Testimonials.NextIndex` | src/components/Testimonials.tsx:53-55 | "Next" always gives an index below the length; from the last index it wraps to 0, otherwise it gives `i + 1` |
| `Testimonials.PrevIndex` | src/components/Testimonials.tsx:57-59 | "Previous" always gives an index below the length; from 0 it wraps to `length - 1`, otherwise it gives `i - 1` |
| `Testimonials.UnguardedPrevLeavesRange` | src/components/Testimonials.tsx:58 | Without the `+ length` term, "previous" from 0 would give -1; with it, it gives `length - 1` |
| `Testimonials.NextThenPrev` | src/components/Testimonials.tsx:53-59 | "Previous" undoes "next" at every index |
| `Testimonials.PrevThenNext` | src/components/Testimonials.tsx:53-59 | "Next" undoes "previous" at every index |
| `Testimonials.NextTimes` | src/components/Testimonials.tsx:53-55 | Any number of "next" clicks from a valid index stays in range |
| `Testimonials.NextTimesAdd` | src/components/Testimonials.tsx:53-55 | `a + b` clicks on "next" are `a` clicks followed by `b` clicks |
| `Testimonials.NextTimesNoWrap` | src/components/Testimonials.tsx:53-55 | Before the end of the list is reached, `k` clicks on "next" add `k` |
| `Testimonials.NextFullCycle` | src/components/Testimonials.tsx:53-55 | Clicking "next" as many times as there are testimonials returns to the starting testimonial |
| `Testimonials.Step` | src/components/Testimonials.tsx:134-158 | One click on the previous arrow, a dot or the next arrow leaves the index within the list |
| `Testimonials.Run` | src/components/Testimonials.tsx:12-59 | After any sequence of next, previous and indicator clicks, starting from a valid index, the index stays within the list |
| `Testimonials.IndicatorStates` | src/components/Testimonials.tsx:145-149 | There is one dot per testimonial, and dot `j` is drawn active exactly when `j` is the current index |
| `Testimonials.OneIndicatorActive` | src/components/Testimonials.tsx:145-149 | The set of active dots is exactly the current index |
| `Testimonials.StarKeys` | src/components/Testimonials.tsx:97-99 | A rating draws as many star icons as its value, and their render keys are pairwise distinct |
| `Testimonials.EveryTestimonialShowsFiveStars` | src/components/Testimonials.tsx:14-51 | Every testimonial in the list shows five stars |
| `Testimonials.Carousel.constructor` | src/components/Testimonials.tsx:12 | The carousel starts at index 0 |
| `Testimonials.Carousel.NextTestimonial` | src/components/Testimonials.tsx:53-55 | The next arrow moves the index to `NextIndex` of the old index and keeps it in range |
| `Testimonials.Carousel.PrevTestimonial` | src/components/Testimonials.tsx:57-59 | The previous arrow moves the index to `PrevIndex` of the old index and keeps it in range |
| `Testimonials.Carousel.SelectIndicator` | src/components/Testimonials.tsx:145-149 | Clicking dot `i` sets the index to exactly `i`, and only dot `i` is then drawn active |
| `Testimonials.Carousel.Current` | src/components/Testimonials.tsx:102-121 | The testimonial on screen is one of the list |
| `Testimonials.Carousel.StarsShown` | src/components/Testimonials.tsx:97-99 | The number of stars on screen equals the current testimonial's rating |
| `Portfolio.OneFilterButtonActive` | src/components/Portfolio.tsx:84-122 | While the filter of button `k` is selected, a button is drawn active (`activeFilter === filter.id`) exactly when it is button `k`: the filter ids are distinct |
| `Portfolio.PortfolioSection.ActiveButton` | src/components/Portfolio.tsx:113-122 | Under any valid filter there is a button whose id is the active filter, and it is the only button drawn active |
| `Portfolio.SelectCategory` | src/components/Portfolio.tsx:93 | Filtering by a category keeps only items of that category and never lengthens the list |
| `Portfolio.SelectIsSubsequence` | src/components/Portfolio.tsx:93 | The filtered items are an ordered subsequence of the items: relative order is preserved |
| `Portfolio.SelectKeepsEveryMatch` | src/components/Portfolio.tsx:93 | Every item of the category is kept, as often as it occurs, and nothing else is |
| `Portfolio.SelectedItemsComeFromList` | src/components/Portfolio.tsx:93 | Every item the filter keeps is an item of the list |
| `Portfolio.SelectKeepsIdsDistinct` | src/components/Portfolio.tsx:132-134 | Filtering a list whose ids are distinct gives a list whose ids (the render keys) are distinct |
| `Portfolio.FilterItems` | src/components/Portfolio.tsx:91-93 | Under "all" the result is the whole list in its order; under any other filter every result item has that category; in both cases the result is an ordered subsequence |
| `Portfolio.SubsequenceReflexive` | src/components/Portfolio.tsx:91-92 | The whole list is a subsequence of itself |
| `Portfolio.SelectAppend` | src/components/Portfolio.tsx:93 | Filtering a concatenation filters each part |
| `Portfolio.SelectWhenAllMatch` | src/components/Portfolio.tsx:93 | Filtering a list whose items all have the category returns it unchanged |
| `Portfolio.SelectWhenNoneMatch` | src/components/Portfolio.tsx:93 | Filtering a list with no item of the category returns nothing |
| `Portfolio.SelectingAllFindsNothing` | src/components/Portfolio.tsx:91-93 | No item has the category "all", so the "all" filter needs its own branch |
| `Portfolio.GridFor` | src/components/Portfolio.tsx:131-215 | The "No portfolio items found" message is shown exactly when the filtered list is empty; otherwise the cards are exactly the filtered items |
| `Portfolio.MyBestCount` | src/components/Portfolio.tsx:22-82 | The "mybest" filter selects the first four items |
| `Portfolio.RecreationsCount` | src/components/Portfolio.tsx:22-82 | The "recreations" filter selects items five and six |
| `Portfolio.OthersCount` | src/components/Portfolio.tsx:22-82 | The "others" filter selects the last item |
| `Portfolio.CatalogueIds` | src/components/Portfolio.tsx:22-82 | The item ids are 1 to 7 in order, hence distinct render keys |
| `Portfolio.FilterButtonShowsItems` | src/components/Portfolio.tsx:84-93 | The filter button at each position shows at least one item |
| `Portfolio.EveryFilterShowsItems` | src/components/Portfolio.tsx:84-93 | Every filter button leads to a non-empty grid, so the empty-grid message is never reached from the buttons |
| `Portfolio.IsPlaying` | src/components/Portfolio.tsx:152-185 | The truthiness read `playingVideos[item.id]`: an absent entry reads as not playing, a present one as its value |
| `Portfolio.ToggleEntry` | src/components/Portfolio.tsx:15-20 | Toggling flips whether video `id` plays, with an absent entry reading as not playing, so it becomes playing; it adds `id` to the keys and leaves every other entry unchanged |
| `Portfolio.ToggleLeavesOthers` | src/components/Portfolio.tsx:16-19 | Toggling one video never changes whether another plays |
| `Portfolio.ToggleTwiceRestores` | src/components/Portfolio.tsx:15-20 | Toggling the same video twice restores whether every video plays |
| `Portfolio.ToggleTwiceFromAbsent` | src/components/Portfolio.tsx:15-20 | When the entry was absent, two toggles leave an explicit `false` behind, so the map itself is not restored |
| `Portfolio.PortfolioSection.constructor` | src/components/Portfolio.tsx:11-13 | The section starts with the "all" filter and an empty play map |
| `Portfolio.PortfolioSection.SelectFilter` | src/components/Portfolio.tsx:117 | A filter button sets the active filter to its id and leaves the play map alone |
| `Portfolio.PortfolioSection.ToggleVideo` | src/components/Portfolio.tsx:15-20 | A click on a video or its overlay replaces the play map with its toggled version and leaves the filter alone |
| `Portfolio.PortfolioSection.FilteredItems` | src/components/Portfolio.tsx:91-93 | The items on screen are never empty and are an ordered subsequence of the portfolio |
| `Contact.FieldNamesDistinct` | src/components/Contact.tsx:110-164 | The five controls have distinct `name` attributes, so a change event names exactly one field |
| `Contact.WithField` | src/components/Contact.tsx:29-34 | A change sets the named field to the event's value and leaves every other field unchanged |
| `Contact.FormsEqualByFields` | src/components/Contact.tsx:12-18 | Two forms that agree on all five fields are equal |
| `Contact.LastChangeWins` | src/components/Contact.tsx:29-34 | A later change of the same field overrides an earlier one |
| `Contact.ChangesCommute` | src/components/Contact.tsx:29-34 | Changes to different fields commute |
| `Contact.UnchangedValueIsNoChange` | src/components/Contact.tsx:29-34 | Writing back a field's current value leaves the form unchanged |
| `Contact.WithFieldDetermined` | src/components/Contact.tsx:29-34 | The two ensures of `WithField` determine its result: any form holding the value in the named field and agreeing elsewhere is that result |
| `Contact.RequiredFieldsFilled` | src/components/Contact.tsx:110-167 | The `required` controls pass exactly when every field but the project type is non-empty |
| `Contact.InitialFormCannotBeSubmitted` | src/components/Contact.tsx:12-18 | The initial form has four empty text fields and the project type "video", so the browser's required-field check blocks it |
| `Contact.ButtonFor` | src/components/Contact.tsx:178-191 | The button is disabled and reads "Message Sent!" exactly while the form is submitted; otherwise it is enabled and reads "Send Message" |
| `Contact.ContactForm.constructor` | src/components/Contact.tsx:12-20 | The form starts as the initial record, not submitted, with a valid project type |
| `Contact.ContactForm.HandleChange` | src/components/Contact.tsx:29-34 | A change event overwrites exactly the named field; the submitted flag is unchanged; the project type stays one of the four select options |
| `Contact.ContactForm.HandleSubmit` | src/components/Contact.tsx:22-27 | Submitting raises the flag and does not modify the form data |
| `Contact.ContactForm.PressSubmit` | src/components/Contact.tsx:104-178 | A press submits exactly when the button is enabled and every required field is non-empty; the form data never changes |
| `Contact.ContactForm.ResetTimerFires` | src/components/Contact.tsx:26 | When the reset timer fires, the flag drops and the form data is unchanged |
| `Contact.ContactForm.Button` | src/components/Contact.tsx:178 | The button is disabled exactly while the form is submitted |
| `Navigation.MenuAfter` | src/components/Navigation.tsx:14-44 | The menu state after one event (outside click, navigation, or the button of line 91): the button always flips it, and any other event can only close it |
| `Navigation.MenuTransitions` | src/components/Navigation.tsx:14-44 | Only the menu button can open the menu. A document click changes it exactly when the menu is open and the click lands outside the bar. Navigation leaves it open exactly when it was open and the target section does not exist |
| `Navigation.MenuButtonTwice` | src/components/Navigation.tsx:91 | Two presses of the menu button restore its state |
| `Navigation.ClosedMenuStaysClosed` | src/components/Navigation.tsx:14-44 | Over any sequence of events without a menu-button press, a menu that ends open was open from the start |
| `Navigation.MenuButtonParity` | src/components/Navigation.tsx:91 | Over presses of the menu button alone, the menu changes state exactly when the number of presses is odd |
| `Navigation.NavItemsTargetRenderedSections` | src/components/Navigation.tsx:46-52 | The navigation entries are `hero`, `portfolio`, `services`, `testimonials`, `contact`, in order. Each is the id of a section on the page, so every navigation click closes the menu |
| `Navigation.NavigationBar.constructor` | src/components/Navigation.tsx:6-7 | The bar starts not scrolled, with the menu closed |
| `Navigation.NavigationBar.HandleScroll` | src/components/Navigation.tsx:10-12 | `isScrolled` becomes true exactly when the offset is strictly greater than 50; the menu is unchanged |
| `Navigation.NavigationBar.ToggleMobileMenu` | src/components/Navigation.tsx:91 | The menu button flips the menu flag |
| `Navigation.NavigationBar.HandleClickOutside` | src/components/Navigation.tsx:14-19 | A click closes the menu only when it is open and the target is outside the bar; otherwise nothing changes |
| `Navigation.NavigationBar.ScrollToSection` | src/components/Navigation.tsx:30-44 | Navigation closes the menu when the section element exists and changes nothing when it does not |

## Left out

- Rendering, styling and layout: the markup, class strings, icons and the
  per-item `muted`/`play()`/`pause()` calls that read the play map. They
  have no behaviour beyond reading the modelled state.
- Animation and visibility: the motion components and the
  intersection-observer `inView` flags. They are library-driven visual
  effects.
- Timers, as time. The contact form's 3-second reset is the explicit event
  `ResetTimerFires`, which may fire at any time; the model keeps no
  pending-timer state. The source never cancels that timer, and the model
  has no unmount event. The 100 ms delay before `scrollIntoView` is not
  modelled.
- Browser calls: `scrollIntoView`, adding and removing the scroll and click
  listeners, `getElementById`, `closest('nav')`, media loading and error
  handlers with their console logging, and the page-wide smooth-scroll
  style. Their results are parameters of the handlers, or they are left
  out.
- `videoLoaded` in the portfolio. It is set only by a media
  loaded-metadata callback.
- Display-only fields of the records: each portfolio item's title, type
  label, video path and description; each testimonial's name, role,
  company, photo and text. A portfolio item keeps its id and category, a
  testimonial its id and rating.
- The contact-info and social-link lists, the services list, the hero, the
  about section and the onboarding screen. They are static copy. The about
  section is not on the page, so its id is not a navigation target.
- The one-way onboarding switch in `src/App.tsx`. It is too thin to model
  on its own.
- The browser's `type="email"` format check on the email field. Only the
  `required` checks are modelled, in `Contact.ContactForm.PressSubmit`.
- React's batching of state updates. Events are applied one at a time, and
  each handler sees the state left by the previous one. The handlers
  `handleChange` (which spreads the rendered `formData`) and
  `handleClickOutside` (re-registered whenever the menu flag changes) rely
  on exactly this.
- Contact.ContactForm.HandleChange: accepts only the five controls of
  the form. A change event from an element with any other `name` would add
  a new key to the record; the page has no such element.
