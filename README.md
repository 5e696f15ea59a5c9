# HostGenie core, modelled in Dafny

HostGenie is a site host. A signed-in user writes or uploads a single-file
HTML page, or has an AI model generate one. The user can touch up the page in
a visual property panel and then publishes it. Before storing the page, the
application adds a "hosted by HostGenie" style block and footer. Published
public pages are listed on the landing page. Each user sees their own sites on
a dashboard, and administrators see every user and site in a console. The
application also has a catalogue of prompt templates: built-in ones, ones
from the database, and ones kept in the browser. It offers English and Chinese
texts, and shows a short tour the first time the editor is opened. A helper
script reads the database credentials out of `.env.local`.

The model keeps the logic of these parts. Network, storage, timers and
rendering are replaced by parameters:

- `FooterInjection` covers the footer injection of `handleSaveSite`.
- `HostingApp` covers the application shell: the user made from a session,
  the list updates made without a backend, the list filters, navigation and
  `#site/<id>` links.
- `SiteEditor` covers the code editor: title extraction, saving, upload and
  AI generation.
- `PropertyPanel` is the specification of the visual property panel: the
  seeded state and the style diff. `PanelComponent` is the component itself,
  whose Apply builds the diff one write at a time.
- `PromptCatalogue` covers the prompt templates: tags, filters, categories,
  the local/remote routing and list updates.
- `SiteRecords` covers the mapping between database rows and site records.
- `AiService` covers the AI service: its configuration, the ordered failover
  over API keys, and the removal of markdown fences.
- `Translations` covers the language provider and its dotted-key lookup.
- `EnvFile` covers the `.env.local` reader of `check_sites.js`.
- `AdminConsole` covers the admin console: filters, the total view count, date
  display and the delete buttons.
- `Onboarding` covers the onboarding tour.

Helper modules:

- `Wrappers` holds `Option`/`Result`.
- `Strings` holds the JavaScript string operations the code uses: `indexOf`,
  `lastIndexOf`, `includes`, `startsWith`, `replace`, `split` on a set of
  characters, `join`, `trim`, `toLowerCase` and `||` on strings.
- `Lists` holds `filter`, first index and distinct values.
- `Numbers` holds `parseInt` without a radix: white space, sign, `0x` and the longest digit run.
- `Types` holds the records of `types.ts`.

Regular expressions are written out as the matchers they amount to. JavaScript's
`.` does not match a line terminator, and a lazy group takes the shortest run
that lets the rest match. The model follows this for four patterns:

- `<title>(.*?)<\/title>` with the `i` flag;
- `url\(["']?(.+?)["']?\)`;
- `^([^=]+)=(.*)$`;
- `/^["']|["']$/g`.

## Model

| member | source | states |
|---|---|---|
| FooterInjection.InjectFooter | App.tsx:277-296 | The stored page is `Injected(html, appUrl)`, and a page that already holds `#hg-footer` is returned unchanged |
| FooterInjection.InjectSteps | App.tsx:280-296 | The step-by-step slicing (`indexOf('</head>')`, prepend, `lastIndexOf('</body>')`, append) computes the injection for any style block and footer |
| FooterInjection.StylePoint | App.tsx:281-287 | The style block goes at the first `</head>` when there is one, otherwise at index 0 |
| FooterInjection.BodyPoint | App.tsx:290-295 | The footer goes at the last `</body>` when there is one, otherwise at the end |
| FooterInjection.InjectedHasMarker | App.tsx:243 | Every injected page contains `#hg-footer`, because the style block carries it and placing the footer cannot break it |
| FooterInjection.InjectedIdempotent | App.tsx:280 | Saving an already saved page again changes nothing, whatever the origin URL |
| FooterInjection.StylesBeforeFirstHeadClose | App.tsx:281-283 | The style block is immediately followed by the page's first `</head>`, and no `</head>` ends before it; without `</head>` it is at the start |
| FooterInjection.FooterBeforeLastBodyClose | App.tsx:290-292 | The footer is immediately followed by the styled page's last `</body>`, and no `</body>` starts after it; without `</body>` it is at the end |
| FooterInjection.RemovingBlocksRestoresPage | App.tsx:283-294 | Cutting the footer and then the style block out of the stored page gives back the user's page exactly |
| HostingApp.DisplayName | App.tsx:111 | The name is non-empty: the metadata name if non-empty; else, for an address not starting with `@`, its prefix up to the first `@` or the end; else `User` |
| HostingApp.UserFromSession | App.tsx:107-114 | The id and e-mail come from the session (missing e-mail is empty); the role is Admin iff the e-mail starts with `admin`; the last login falls back to now |
| HostingApp.AdminSession | App.tsx:111-112 | An address `admin…@domain` yields an administrator named after its local part, with last login now |
| HostingApp.SiteObject | App.tsx:298-310 | A saved site belongs to the saver, is published, has no views, is time-stamped now, keeps the request's id when it has one and otherwise gets the generated id |
| HostingApp.NewSiteListing | App.tsx:339-449 | A newly saved site heads its owner's dashboard and is on the landing page exactly when saved as public |
| HostingApp.ReplaceSite | App.tsx:337 | The update keeps the length and every entry with another id; the entry with the id becomes the new record with its old `createdAt` and `views` |
| HostingApp.DeleteSite | App.tsx:360 | The delete keeps exactly the entries with another id, each as often as it occurs, in their order |
| HostingApp.FindSiteIndex | App.tsx:383 | The index of the first site with the id, or -1 exactly when none has it |
| HostingApp.FindSite | App.tsx:383 | `find`: no result exactly when no site has the id; otherwise the first site of the list with that id |
| HostingApp.CreateThenFind | App.tsx:339 | A prepended new entry is what a lookup of its id finds |
| HostingApp.DeleteUndoesCreate | App.tsx:339-360 | Deleting a just-created entry whose id no other entry has restores the list |
| HostingApp.DeleteThenFind | App.tsx:360-383 | After a delete the id is not found |
| HostingApp.ReplaceThenFind | App.tsx:337-383 | After an update of an existing id, the lookup gives the new record with the old creation time and view count |
| HostingApp.PublicSites | App.tsx:441 | The landing page lists exactly the published sites marked public, each as often as it occurs, in order |
| HostingApp.OwnSites | App.tsx:449 | The dashboard lists exactly the user's own sites, each as often as it occurs, in order |
| HostingApp.SessionAdmin | App.tsx:398 | Nobody is an administrator when signed out; a session's user is one exactly when the address starts with `admin` |
| HostingApp.SiteIdFromHash | App.tsx:381-382 | A hash yields an id iff it starts with `#site/`, and then it is the prefix followed by that id |
| HostingApp.HashRoundTrip | App.tsx:369-382 | The hash written for a site reads back as the site's id |
| HostingApp.App.constructor | App.tsx:64-77 | The application starts on the landing view, with nothing opened, edited or awaiting deletion |
| HostingApp.App.SaveSiteLocally | App.tsx:233-345 | With no user nothing changes; otherwise the injected page updates the entry with the request's id or is prepended as a new entry, editing ends and the dashboard shows |
| HostingApp.App.RequestDelete | App.tsx:348-349 | Asking to delete records which site the confirmation is about |
| HostingApp.App.ConfirmDelete | App.tsx:352-363 | With no pending id nothing happens; otherwise the entries with that id are deleted and the pending id is cleared |
| HostingApp.App.NavigateTo | App.tsx:394-404 | `landing` and `admin` set their views; `dashboard` and `create` clear the edited site; `dashboard` goes to the console for admins; other targets change nothing |
| HostingApp.App.HashChanged | App.tsx:378-391 | A `#site/<id>` hash opens the viewer on that site only if the list has it; otherwise nothing changes |
| SiteEditor.TitleEnd | views/Editor.tsx:84 | The lazy scan for `</title>` stops at the first close after its start and never crosses a line terminator; it finds none exactly when no close starts before the line ends |
| SiteEditor.MatchTitleAt | views/Editor.tsx:84 | A match at an index needs `<title>` there, in any case, and captures up to the first `</title>` on that line; with `<title>` there it fails only when no `</title>` starts before the line ends |
| SiteEditor.MatchTitleFrom | views/Editor.tsx:84 | The leftmost index at which `<title>(.*?)</title>` matches, case-insensitively, or none if it matches nowhere |
| SiteEditor.TitleCapture | views/Editor.tsx:84 | No capture exactly when the pattern matches nowhere; otherwise the capture of the leftmost match |
| SiteEditor.ExtractTitle | views/Editor.tsx:83-87 | The extracted title is the leftmost match's capture, trimmed, or empty when nothing matches |
| SiteEditor.TitleOfPage | views/Editor.tsx:84-87 | A page whose first `<title>`, in any case, is closed on the same line gives the text up to the first `</title>`, trimmed, whatever the page holds elsewhere |
| SiteEditor.BrokenTitleGivesNone | views/Editor.tsx:84 | A page whose only `<title>` has a line break before any `</title>` gives no title |
| SiteEditor.TitleAfterHead | views/Editor.tsx:84-87 | `<title>t</title>` after a head that opens no title gives `t` trimmed, for `t` on one line without `<` |
| SiteEditor.StarterPageTitle | views/Editor.tsx:16-28 | The starter page's title reads back as `我的网站` |
| SiteEditor.SavedTitle | views/Editor.tsx:91 | The saved title is never empty: the extracted one, else the typed one, else `未命名网站` |
| SiteEditor.UploadTitle | views/Editor.tsx:61 | The first `.html` of the file name is cut out, and a name without one stays as it is |
| SiteEditor.UploadTitleDropsExtension | views/Editor.tsx:61 | `name.html` (dot-free name) gives the title `name` |
| SiteEditor.Editor.constructor | views/Editor.tsx:15-51 | A new site starts from the starter page with no title and both flags on; an edited site loads its title and page, and missing flags default to true |
| SiteEditor.Editor.CanSave | views/Editor.tsx:211 | Saving is enabled iff the page has a character that is not white space |
| SiteEditor.Editor.CanGenerate | views/Editor.tsx:266 | Generating is enabled iff the prompt has a character that is not white space |
| SiteEditor.Editor.UploadFile | views/Editor.tsx:53-65 | The file replaces the page; the title becomes the file name without `.html` only when there was none and no site is being edited |
| SiteEditor.Editor.AiGenerate | views/Editor.tsx:67-79 | A blank prompt does nothing; success replaces the page (and names an untitled new site); failure alerts and keeps the page; the busy flag ends off |
| SiteEditor.Editor.Save | views/Editor.tsx:81-96 | The payload has the edited site's id exactly when one is being edited, the saved-title fallback, the page as it is and both flags |
| PropertyPanel.IsBoldNumeric | components/VisualEditor.tsx:80 | A numeric weight is bold iff it is at least 700 |
| PropertyPanel.MissingWeightIsNotBold | components/VisualEditor.tsx:80 | A missing or empty weight defaults to 400 and is not bold |
| PropertyPanel.LazyEnd | components/VisualEditor.tsx:69 | The lazy capture of `url(...)` ends at the first place the closing part matches, without crossing a line terminator; it finds none exactly when the closing part matches nowhere before the line ends |
| PropertyPanel.Capture | components/VisualEditor.tsx:69 | The capture `(.+?)` takes at least one character and ends at the first place the closing part matches on its line; it fails only when there is none |
| PropertyPanel.ExtractUrl | components/VisualEditor.tsx:69 | A URL extracted from a background is never empty |
| PropertyPanel.ExtractUploadedUrl | components/VisualEditor.tsx:69-70 | `url(u)` gives back `u` for a URL without quotes, `)` or line breaks |
| PropertyPanel.ExtractQuotedUrl | components/VisualEditor.tsx:69-70 | `url("u")` gives back `u` for the same URLs |
| PropertyPanel.NoUrlNoImage | components/VisualEditor.tsx:69-70 | A background without `url(` yields no image |
| PropertyPanel.Seeded | components/VisualEditor.tsx:59-84 | Selecting an element sets image mode iff it has a background image other than `none`; in colour mode no image is kept; boldness follows the weight rule; alignment and shadow are kept |
| PropertyPanel.TextChange | components/VisualEditor.tsx:110-112 | A text change is sent iff the edited text differs from the element's text, and it is the edited text |
| PropertyPanel.Put | components/VisualEditor.tsx:115-158 | A conditional write sets only its own key, and only when there is a value |
| PropertyPanel.WrittenAt | components/VisualEditor.tsx:115-158 | After the ten writes, a key is present iff its own entry is, with that entry's value |
| PropertyPanel.DiffHoldsEntries | components/VisualEditor.tsx:115-158 | The record Apply sends holds exactly the keys that have an entry, with their values |
| PropertyPanel.DiffSendsChangedProperties | components/VisualEditor.tsx:117-151 | Colour, family, size, weight, style and decoration are sent iff they differ from the element's; background colour only in colour mode, and always with `backgroundImage: none`; alignment whenever set |
| PropertyPanel.DiffValues | components/VisualEditor.tsx:117-157 | Each property sent carries the panel's value in CSS form (`px` size, `bold`/`normal`, `italic`/`normal`, `underline`/`none`, the shadow text) |
| PropertyPanel.ReplacePxSuffix | components/VisualEditor.tsx:78-79 | Stripping `px` from `<n>px` gives `n` |
| PropertyPanel.UneditedApplySendsOnlyAlignAndShadow | components/VisualEditor.tsx:59-162 | Applying right after selecting an element sends only alignment and shadow, provided the element reports its colour, reports its background colour when it has no background image, and reports its size as `<n>px` (otherwise seeding fills in defaults such as `#000000` that Apply then sends) |
| PropertyPanel.ApplyAlwaysSendsStyles | components/VisualEditor.tsx:153-161 | The record always holds a shadow, so the style callback always runs |
| PropertyPanel.FontName | components/VisualEditor.tsx:178 | The font name is a prefix of the file name |
| PropertyPanel.FontNameDropsExtension | components/VisualEditor.tsx:178 | `name.ext`, with a non-empty extension without `.` or `/`, gives `name` |
| PropertyPanel.FontNameUnchanged | components/VisualEditor.tsx:178 | The font name is the file name as it is exactly when the name does not end in a `.` followed by a non-empty extension free of `.` and `/` |
| PropertyPanel.ControlsByElementKind | components/VisualEditor.tsx:195-508 | An image gets the upload control and no text or colour controls; any other element gets the colour control, and the text controls exactly when it has text |
| PropertyPanel.UploadedImageSeedsBack | components/VisualEditor.tsx:69-70 | Selecting an element whose background is an uploaded image seeds image mode with that image |
| PanelComponent.ApplyColor | components/VisualEditor.tsx:117-119 | The text colour write is the colour entry |
| PanelComponent.ApplyBackground | components/VisualEditor.tsx:121-124 | The background write puts the colour and `none` image entries |
| PanelComponent.ApplyFontFamily | components/VisualEditor.tsx:127-129 | The family write, a missing family comparing as `inherit` |
| PanelComponent.ApplyFontSize | components/VisualEditor.tsx:131-133 | The size write, in pixels |
| PanelComponent.ApplyWeight | components/VisualEditor.tsx:135-138 | The weight write, against the element's boldness |
| PanelComponent.ApplyItalic | components/VisualEditor.tsx:140-142 | The style write |
| PanelComponent.ApplyUnderline | components/VisualEditor.tsx:144-147 | The decoration write |
| PanelComponent.ApplyAlign | components/VisualEditor.tsx:149-151 | The alignment write, whenever an alignment is set |
| PanelComponent.ApplyShadow | components/VisualEditor.tsx:153-157 | The shadow write, which always happens |
| PanelComponent.Panel.constructor | components/VisualEditor.tsx:43-57 | The panel starts from its initial state |
| PanelComponent.Panel.Select | components/VisualEditor.tsx:59-84 | Selecting an element leaves the panel in the seeded state |
| PanelComponent.Panel.Apply | components/VisualEditor.tsx:108-162 | Apply sends the text change and exactly the diff record |
| PanelComponent.Panel.RemoveBackground | components/VisualEditor.tsx:186-193 | Sends exactly `backgroundImage: none, backgroundColor: transparent`, drops the image and returns to colour mode |
| PanelComponent.Panel.UploadBackgroundImage | components/VisualEditor.tsx:607-614 | Sends exactly the image URL, `cover` and `center`, and keeps the image |
| PanelComponent.Panel.UploadFont | components/VisualEditor.tsx:174-180 | The font name derived from the file and the file's data are handed over, and the font is selected |
| PromptCatalogue.FromRow | views/PromptTemplates.tsx:90-98 | A row's columns become the entry's fields, missing tags an empty list |
| PromptCatalogue.FromRows | views/PromptTemplates.tsx:90-98 | Every database row becomes an entry, in order, with missing tags as an empty list |
| PromptCatalogue.ParseTags | views/PromptTemplates.tsx:176 | Every parsed tag is non-empty and trimmed |
| PromptCatalogue.ParseTagsAfterPiece | views/PromptTemplates.tsx:176 | Text up to either comma gives its trimmed text as the next tag unless blank, followed by the tags of the rest |
| PromptCatalogue.ParseTagsOfLastPiece | views/PromptTemplates.tsx:176 | Text without a comma gives its trimmed text as the only tag, or no tag when blank |
| PromptCatalogue.ParsedTagsHaveNoSeparator | views/PromptTemplates.tsx:176 | No parsed tag contains an ASCII or full-width comma |
| PromptCatalogue.ParseJoinedTags | views/PromptTemplates.tsx:163-176 | Tags shown joined by `, ` in the edit form parse back to the same tags |
| PromptCatalogue.CategoryColumn | views/PromptTemplates.tsx:263 | The categories of the prompts, one per prompt, in order |
| PromptCatalogue.Categories | views/PromptTemplates.tsx:263 | `All` first, then every category of the list exactly once, in order of first appearance |
| PromptCatalogue.Filtered | views/PromptTemplates.tsx:265-271 | A prompt is shown iff the search occurs, ignoring case, in its title, content or a tag, and the tab is `All` or its category; each shown prompt as often as it occurs; order is kept |
| PromptCatalogue.UnfilteredShowsAll | views/PromptTemplates.tsx:265-271 | An empty search on `All` shows everything |
| PromptCatalogue.DataOf | views/PromptTemplates.tsx:172-180 | The saved record has the parsed tags, the category or `Custom`, the system flag iff asked for by an admin, and a non-empty author |
| PromptCatalogue.Merged | views/PromptTemplates.tsx:196 | An update keeps the id, author and system flag and takes the form's title, content, category and tags |
| PromptCatalogue.UpdateById | views/PromptTemplates.tsx:196-206 | The update replaces only the entries with the id, by their merged form |
| PromptCatalogue.RemoveById | views/PromptTemplates.tsx:145-151 | The delete keeps exactly the entries with another id, each as often as it occurs, in order |
| PromptCatalogue.RemoveAbsentId | views/PromptTemplates.tsx:145-151 | Deleting an absent id changes nothing |
| PromptCatalogue.LocalPrompt | views/PromptTemplates.tsx:236-244 | A local entry has a `usr_` id, is not a system prompt, and carries the form's fields |
| PromptCatalogue.LocalIdsDiffer | views/PromptTemplates.tsx:237 | Entries created at different times get different ids |
| PromptCatalogue.LocalPromptStaysLocal | views/PromptTemplates.tsx:134-184 | A locally created entry gets a `usr_` id and no system flag, so its later deletes and updates go to the browser's storage even when a database is configured |
| PromptCatalogue.FormOf | views/PromptTemplates.tsx:159-164 | The edit form shows the entry's fields, its tags joined by `, ` |
| PromptCatalogue.EditSaveRoundTrip | views/PromptTemplates.tsx:159-196 | Opening an entry to edit and saving it untouched gives the same entry |
| PromptCatalogue.SystemPromptsAreBuiltIn | views/PromptTemplates.tsx:14-55 | Every built-in prompt has a `sys_` id and the system flag |
| PromptCatalogue.Catalogue.constructor | views/PromptTemplates.tsx:59-72 | The page starts with no prompts, no search, the `All` tab and a closed empty form |
| PromptCatalogue.Catalogue.Shown | views/PromptTemplates.tsx:265-271 | The shown prompts are the ones matching the search and the tab |
| PromptCatalogue.Catalogue.Load | views/PromptTemplates.tsx:78-117 | The list is the built-in prompts, then the database rows, then the stored local prompts; unreadable stored data is skipped |
| PromptCatalogue.Catalogue.Delete | views/PromptTemplates.tsx:125-152 | Unconfirmed: nothing; `sys_` ids: refused; else removed remotely or locally by the routing rule; built-in prompts always stay |
| PromptCatalogue.Catalogue.Edit | views/PromptTemplates.tsx:154-166 | `sys_` ids are refused with nothing changed; others fill and open the form |
| PromptCatalogue.Catalogue.Save | views/PromptTemplates.tsx:168-261 | Missing title or content: nothing; an edit updates the list (and storage when local); a create inserts remotely or prepends locally and stores; on success the form closes |
| SiteRecords.FromDB | lib/supabase.ts:36-48 | Columns are renamed; a falsy author, title or page becomes `Unknown`, `Untitled` or empty; `updatedAt` is missing iff the column is falsy |
| SiteRecords.ToDB | lib/supabase.ts:50-63 | The id is written iff non-empty; both time stamps are always written as text, falling back to now |
| SiteRecords.StoredSiteReadsBack | lib/supabase.ts:36-63 | Writing and reading back keeps the id, owner, counters, flags, page and non-empty names; missing time stamps come back as now |
| SiteRecords.ReadSiteWritesBack | lib/supabase.ts:36-63 | Reading a row and writing it again keeps its plain columns and non-empty names |
| AiService.ApiKeys | services/geminiService.ts:4-10 | A missing or empty variable is an error; otherwise the keys are the comma-separated pieces, trimmed, none empty |
| AiService.ApiKeysAfterKey | services/geminiService.ts:9 | Text up to a comma gives its trimmed text as the next key unless blank, followed by the keys of the rest |
| AiService.ApiKeysSingle | services/geminiService.ts:9 | A list without commas is its trimmed text as the only key, or no key when blank |
| AiService.BaseUrlOf | services/geminiService.ts:12-18 | The URL is the variable or the OpenAI endpoint, with at most one trailing `/` removed |
| AiService.BaseUrl | services/geminiService.ts:12-18 | The reassigning version computes the same URL |
| AiService.ModelOf | services/geminiService.ts:20-22 | The model is the variable if non-empty, else `gpt-3.5-turbo` |
| AiService.FirstAnswered | services/geminiService.ts:42-91 | The first key whose request is answered; every earlier key failed |
| AiService.CleanFences | services/geminiService.ts:82-84 | The cleaned answer is trimmed and has no markdown fence left |
| AiService.RemovingFencesLeavesNone | services/geminiService.ts:82 | Removing every fence leaves none, even where removal joins backticks |
| AiService.PlainAnswerIsTrimmed | services/geminiService.ts:82-84 | An answer without backticks is only trimmed |
| AiService.Failover | services/geminiService.ts:42-94 | Keys are tried in order up to the first answer, whose content is cleaned and returned; if all fail, the error carries the last failure's message |
| AiService.Generate | services/geminiService.ts:24-95 | A missing key list is an error with no request made; otherwise the failover runs with the configured URL and model |
| Translations.Code | contexts/LanguageContext.tsx:28 | A language is stored as `en` or `zh` |
| Translations.SavedLanguage | contexts/LanguageContext.tsx:20-23 | A stored value is adopted iff it is exactly `en` or `zh` |
| Translations.CodeReadsBack | contexts/LanguageContext.tsx:20-28 | The stored code of a language reads back as that language |
| Translations.DescendAppend | contexts/LanguageContext.tsx:35-41 | Walking a path in two parts is walking the first, then the second |
| Translations.ResolveAppend | contexts/LanguageContext.tsx:35-43 | Resolving a path in two parts resolves the second part in the entry the first part reaches, or nothing if it reaches none |
| Translations.LanguageProvider.constructor | contexts/LanguageContext.tsx:17-24 | The provider starts in Chinese and takes a valid stored language |
| Translations.LanguageProvider.SetLanguage | contexts/LanguageContext.tsx:26-29 | Switching sets and stores the language, which reads back the same |
| Translations.LanguageProvider.T | contexts/LanguageContext.tsx:31-44 | The text the dotted key leads to in the current table, or the key itself when a segment is missing or the end is not a text |
| EnvFile.Unquote | check_sites.js:15 | Both quotes are removed from a quoted value; a quote at one end only is removed; an unquoted value stays; a lone quote becomes empty; no character is added |
| EnvFile.ParseLine | check_sites.js:12-15 | A line is used iff it has a non-empty key before its first `=` and no line terminator after it; the key is trimmed and free of `=`, the value free of line breaks |
| EnvFile.Config | check_sites.js:11-18 | Every key is trimmed and free of `=`, and no value holds a line break |
| EnvFile.ConfigKeys | check_sites.js:11-18 | A key is defined iff some line assigns it |
| EnvFile.LastAssignmentWins | check_sites.js:16 | A key's value is the one its last assignment gives |
| EnvFile.CarriageReturnLineIgnored | check_sites.js:11-12 | A line with a carriage return after `=` (a CRLF file) is ignored |
| EnvFile.AssignmentLine | check_sites.js:12-15 | `k=v` assigns the trimmed key the unquoted trimmed value |
| EnvFile.QuotedValueReadsBack | check_sites.js:12-15 | A trimmed key assigned a double-quoted value reads back the value without quotes |
| EnvFile.ParseEnv | check_sites.js:7-19 | A missing file gives no entries; otherwise the entries are those of the lines split at `\n` |
| EnvFile.Credentials | check_sites.js:21-27 | The script goes on iff both the URL and the key are present and non-empty |
| AdminConsole.FilteredUsers | views/AdminPanel.tsx:19 | Exactly the users whose name or e-mail contains the search, ignoring case, each as often as it occurs; order is kept |
| AdminConsole.FilteredSites | views/AdminPanel.tsx:20 | Exactly the sites whose title or author contains the search, ignoring case, each as often as it occurs; order is kept |
| AdminConsole.EmptySearchShowsAll | views/AdminPanel.tsx:19-20 | An empty search shows every user and every site |
| AdminConsole.LongerSearchNarrows | views/AdminPanel.tsx:19-20 | Typing more of the search only removes rows |
| AdminConsole.TotalViews | views/AdminPanel.tsx:23 | With no negative counts, the total is not negative |
| AdminConsole.TotalViewsAppend | views/AdminPanel.tsx:23 | The total over two lists is the sum of their totals |
| AdminConsole.TotalViewsBound | views/AdminPanel.tsx:23 | With no negative counts, the total is at least any one site's views |
| AdminConsole.FormatDate | views/AdminPanel.tsx:25-37 | A missing or zero time gives `N/A`; a time outside the date range gives `Invalid Date`; any other time is rendered |
| AdminConsole.AdminsAreNotDeletable | views/AdminPanel.tsx:200-204 | No administrator is offered for deletion |
| Onboarding.StepAfter | components/OnboardingTour.tsx:48-50 | After `k` presses the card is `k`, stopping at the last |
| Onboarding.Tour.constructor | components/OnboardingTour.tsx:12-57 | The tour starts hidden on the first card, so nothing is drawn |
| Onboarding.Tour.Show | components/OnboardingTour.tsx:15-57 | The delayed effect makes the tour visible, and so drawn, and changes nothing else |
| Onboarding.Tour.Current | components/OnboardingTour.tsx:59 | The card shown is the step's card |
| Onboarding.Tour.ButtonLabel | components/OnboardingTour.tsx:106 | The button reads `Get Started` iff on the last card, else `Next` |
| Onboarding.Tour.Next | components/OnboardingTour.tsx:48-55 | Below the last card the step goes up by one; on the last the tour hides and completes once; the step stays among the cards |
| Onboarding.Tour.Close | components/OnboardingTour.tsx:78-79 | Closing completes the tour at once and changes nothing else |
| Numbers.ParseDecimal | components/VisualEditor.tsx:80 | `parseInt` reads back the decimal text of a number |
| Numbers.ParseNonNumeric | components/VisualEditor.tsx:80 | Text that starts with no digit, sign or space reads as NaN, such as a weight of `bold` |

## Left out

- Network and storage: every Supabase query, `fetch`, `localStorage` and the `fs` calls of `check_sites.js`. Their results are parameters: rows, replies, a stored entry, file text.
- Time and dates: `Date.now()`, `new Date(...).getTime()`, `toISOString()` and `toLocaleString` are parameters (`now`, `parse`, `format`, `render`). NaN and time zones are not modelled.
- Timers: the tour's 500 ms show and 300 ms fade, and the copy flags of the catalogue.
- Asynchrony: `FileReader` callbacks are modelled as the moment the file has been read. The stale-closure reads of React state are not modelled.
- Rendering: JSX, iframe previews, the clipboard, the admin console's tab state, and the dashboard, landing, auth, viewer and navbar views.
- ASCII case: `toLowerCase` is modelled on ASCII letters only. Other letters compare as themselves.
- Inherited properties: `k in value` and `envConfig[key]` are modelled on own keys only. Keys such as `__proto__` and inherited properties of JavaScript objects are not modelled.
- HostingApp.App.SaveSiteLocally: models the save without a backend. The Supabase branch (update/insert, then `loadSitesFromSupabase`) is not modelled. The generated id (`Math.random`) is a parameter.
- HostingApp.App.ConfirmDelete: models the delete without a backend. The Supabase branch is not modelled.
- HostingApp.App.constructor: the initial site list, read from storage or taken from the demo data, is a parameter.
- HostingApp: the auth listener's other branches, login and logout, `loadSitesFromSupabase`, the `handleViewSite`/`handleEditSite` setters, and the history and scroll calls of `navigateTo`.
- SiteRecords.FromDB: a row without an id maps to the empty id instead of `undefined`.
- PromptCatalogue.FromRow: missing tags become an empty list. The row the insert returns (views/PromptTemplates.tsx:229 reads its `data.tags` without a default) goes through the same mapping.
- PromptCatalogue.Catalogue.Load: stored data that parses to a JSON string would be spread into its characters; the model reads any stored value that is not a list of entries as unreadable.
- PromptCatalogue.Merged: models only the camelCase fields of the spread. The snake_case keys `author_name` and `is_system` that the spread also copies into a local entry are not modelled.
- AiService: the system instruction text and the request's other fields (`temperature`, `stream`) are not modelled.
- AiService: the HTTP status, the JSON parse and the text of each failure are left to the reply oracle. A reply is only "answered with content", or "failed with a message".
- PropertyPanel: the panel's state hooks are one record, replaced as a whole by each step. The per-control handlers of the panel's JSX (components/VisualEditor.tsx:257-440) each set their field and at once send a one-property style record (font family, size, bold, italic, underline, alignment); those immediate sends are not modelled, so Apply's record is the only style record the model sends.
- Onboarding: `onComplete` is counted rather than called.
