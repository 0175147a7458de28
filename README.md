# Email template engine and route guard

This project models two parts of the Indonet Analytics Hub and proves their properties in Dafny.

The first is the placeholder engine of the `EmailTemplate` model. A stored template has a
subject, an HTML body and an optional plain-text body. These texts contain placeholders
written `{{name}}`. The engine:

- lists the placeholder names of a text or of a whole template;
- reports which of them a caller's variable map leaves unset;
- compiles a template by replacing placeholders with values, after adding four system
  variables (`{{app_name}}`, `{{app_url}}`, `{{current_year}}`, `{{current_date}}`);
- compiles a free-standing template string against a data map keyed by bare names;
- builds the canned default template for each of the five template types.

The second is the route guard that runs before every page request of the dashboard. It
decides from the path and the session token whether to serve the page, to redirect to
`/home` or to redirect to `/login`.

Modules, in dependency order:

- `Options`: an optional value, standing in for PHP `null` and for `??`.
- `Sequences`: distinctness, subsequences, `Dedup`, which models the values `array_unique`
  keeps, and `KeptKeys`, which gives the keys it keeps them under.
- `VariableMaps`: PHP arrays with string keys, as ordered entry lists. `Get` models
  `array_key_exists` and lookup. `Merge` models `array_merge`: a key already present keeps
  its position and takes the new value, and new keys are appended.
- `TemplateText`: the reference view of a template as pieces, either literal text or a
  placeholder slot. It has `Render` (pieces to text), `Slots` (the names in order) and
  `Resolve` (fill the slots a variable map has a value for). The engine's scanner and its
  replacement are proved against this view.
- `StrReplace`: PHP `str_replace` for one search string. An empty search string leaves the
  subject unchanged.
- `Placeholders`: the pattern `\{\{([^}]+)\}\}` as `preg_match_all` applies it (`Scan`),
  and `extractPlaceholders`.
- `TemplateRecord`: the columns of a stored template.
- `EmailTemplates`: `getPlaceholders`, `validatePlaceholders`, `compile` and
  `compileTemplate`.
- `TemplateCatalog`: the template types, their labels and `createDefaultTemplate`.
- `Middleware`: the route guard decision.

The values that `compile` reads from configuration and the clock are inputs, in
`EmailTemplates.Environment`: the configured `app.name` (absent when unset), `app.url`, the
year and the formatted date. The guard takes the session token as an input: absent, or
present with an optional role.

Two notes on how the code behaves:

- The engine replaces variables one after another, in map order. A value inserted by one
  variable is seen by every later one, so the result can differ from replacing every
  placeholder against the original text at once (`EmailTemplates.LaterKeysSeeEarlierValues`).
- `compile` re-tests the plain-text body on each step with PHP truthiness. The strings `""`
  and `"0"` are falsy, so a body of `"0"` is never substituted, even when a variable's
  key is `"0"`.

## Model

| member | source | states |
|---|---|---|
| Sequences.Dedup | app/Models/EmailTemplate.php:326 | the values `array_unique` keeps have no repeats and are exactly the values of its input |
| Sequences.KeptKeys | app/Models/EmailTemplate.php:326 | each kept value stays under its original key, the position of its first occurrence; the keys increase and may have gaps |
| Sequences.DedupKeepsFirstSeenOrder | app/Models/EmailTemplate.php:326 | `array_unique` keeps each value's first occurrence, so the kept names appear in the order they were first seen |
| VariableMaps.Get | app/Models/EmailTemplate.php:290 | a lookup finds a value exactly when the key is present (`array_key_exists`), and the value found is stored under that key |
| VariableMaps.Put | app/Models/EmailTemplate.php:182 | storing a key keeps an existing key's position or appends a new key; only that key's value changes |
| VariableMaps.Merge | app/Models/EmailTemplate.php:182 | definition of `array_merge` for string keys: the second array's entries are stored into the first one after the other |
| VariableMaps.MergeGet | app/Models/EmailTemplate.php:182 | after `array_merge`, a key from the second array has that array's value; any other key keeps the first array's value |
| VariableMaps.MergeKeyOrder | app/Models/EmailTemplate.php:182 | `array_merge` keeps the first array's key order and appends the second array's new keys in their own order |
| VariableMaps.MergeKeepsKeysUnique | app/Models/EmailTemplate.php:182 | merging into an array with unique keys yields unique keys |
| TemplateText.Token | app/Models/EmailTemplate.php:289 | the placeholder for a name is the name wrapped in `{{` and `}}`, four characters longer |
| TemplateText.IsTokenKeyIsToken | app/Models/EmailTemplate.php:176-179 | a key of the form `{{name}}` is the placeholder of its inner name |
| TemplateText.TokenInjective | app/Models/EmailTemplate.php:289 | different names have different placeholders |
| TemplateText.Slots | app/Models/EmailTemplate.php:323-327 | the listed names are exactly the names of the template's slots |
| TemplateText.Resolve | app/Models/EmailTemplate.php:334-335 | piece by piece: a slot whose `{{name}}` key has a value becomes that value as literal text; every other piece, including a slot without a value, stays as it is |
| TemplateText.ResolveKeepsWellFormed | app/Models/EmailTemplate.php:184-190 | filling slots with values that contain no `{` gives another well-formed template |
| TemplateText.ResolveNothing | app/Models/EmailTemplate.php:334-335 | an empty variable map leaves every placeholder unchanged |
| StrReplace.ReplaceAll | app/Models/EmailTemplate.php:185 | definition of `str_replace` with one search string: occurrences found left to right without overlap are replaced, inserted values are not searched again, an empty search string changes nothing |
| StrReplace.ReplaceAbsentNeedle | app/Models/EmailTemplate.php:185 | `str_replace` leaves a text unchanged when the search string does not occur in it |
| StrReplace.ReplaceBySelf | app/Models/EmailTemplate.php:185 | replacing a search string by itself leaves any text unchanged |
| StrReplace.ReplaceInRender | app/Models/EmailTemplate.php:185 | in a well-formed template, replacing `{{k}}` fills exactly the slots named `k` and changes nothing else |
| Placeholders.RunLength | app/Models/EmailTemplate.php:325 | `[^}]+` runs to the first `}` or the end of the text, and no further |
| Placeholders.MatchAt | app/Models/EmailTemplate.php:325 | a match at the start is `{{`, at least one character other than `}`, then `}}` |
| Placeholders.Scan | app/Models/EmailTemplate.php:325 | definition of the captures of `preg_match_all`: try a match at each position; after a match resume behind it, otherwise move on by one character |
| Placeholders.ScanSound | app/Models/EmailTemplate.php:325 | every captured name is non-empty, has no `}`, and its placeholder occurs in the text |
| Placeholders.ExtractPlaceholders | app/Models/EmailTemplate.php:323-327 | the result has no repeats, holds exactly the captured names, and each name's placeholder occurs in the content |
| Placeholders.NoOpeningNoPlaceholders | app/Models/EmailTemplate.php:325 | a text without two adjacent `{` has no placeholders |
| Placeholders.ScanAfterPlain | app/Models/EmailTemplate.php:325 | text without `{` in front of the content adds no matches |
| Placeholders.MatchAtComplete | app/Models/EmailTemplate.php:325 | a placeholder `{{n}}` at the start of a text, for any non-empty `n` without `}` (a `{` included), is matched, with length `|n|` |
| Placeholders.ScanToken | app/Models/EmailTemplate.php:325 | a placeholder `{{n}}` at the start of a text, for any non-empty `n` without `}`, is captured as `n`, and the scan resumes right after it |
| Placeholders.ScanRender | app/Models/EmailTemplate.php:325 | on a well-formed template the scan returns its slot names in order: the scanner inverts rendering |
| Placeholders.ExtractRender | app/Models/EmailTemplate.php:323-327 | on a well-formed template the extracted names are its slot names without repeats |
| Placeholders.OpeningsClosedSuffix | app/Models/EmailTemplate.php:271-272 | if every `{{` of a text is followed by a `}`, the same holds for each suffix |
| Placeholders.ScanJoin | app/Models/EmailTemplate.php:271-272 | if every `{{` of the first text is followed by a `}`, scanning the texts joined by a space is scanning each text |
| Placeholders.ScanPrefix | app/Models/EmailTemplate.php:271-272 | the matches of a text's start are the first matches of the whole text |
| EmailTemplates.Content | app/Models/EmailTemplate.php:271 | definition of the joined content: subject, space, HTML body, space, text body or `""` when it is null |
| EmailTemplates.GetPlaceholders | app/Models/EmailTemplate.php:269-275 | the names have no repeats, and each name's placeholder occurs in the joined subject, HTML body and text body |
| EmailTemplates.SubjectPlaceholdersListed | app/Models/EmailTemplate.php:271-274 | every placeholder of the subject is listed |
| EmailTemplates.ScanOfClosedFields | app/Models/EmailTemplate.php:271-272 | when every `{{` in the subject and HTML body is followed by a `}`, the joined content yields the subject's matches, then the HTML body's, then the text body's |
| EmailTemplates.PlaceholdersOfClosedFields | app/Models/EmailTemplate.php:271-274 | when every `{{` in the subject and HTML body is followed by a `}`, the list is the names of the three fields, in order, without repeats |
| EmailTemplates.OpenSubjectHidesHtmlPlaceholder | app/Models/EmailTemplate.php:271-272 | a subject ending in an unclosed `{{` hides a placeholder of the HTML body from the list |
| EmailTemplates.ScanOfOpenJoin | app/Models/EmailTemplate.php:272 | the pattern captures `a {{c` from the text `{{a {{c}} ` |
| EmailTemplates.Unresolved | app/Models/EmailTemplate.php:288-293 | definition of the missing names: those whose `{{name}}` key is absent, in list order |
| EmailTemplates.UnresolvedSpec | app/Models/EmailTemplate.php:288-293 | a name is reported missing exactly when its placeholder is not a key of the map; the missing names keep their order and have no repeats |
| EmailTemplates.ValidatePlaceholders | app/Models/EmailTemplate.php:283-296 | returns the template's placeholders whose `{{name}}` key is not among the caller's variables, in order and without repeats; the system variables are not consulted |
| EmailTemplates.DefaultVariables | app/Models/EmailTemplate.php:175-180 | the system variables are exactly `{{app_name}}`, `{{app_url}}`, `{{current_year}}`, `{{current_date}}`, in that order; `app_name` is the configured name, or `Indonet Analytics Hub` when none is configured |
| EmailTemplates.Truthy | app/Models/EmailTemplate.php:187 | definition of PHP truthiness for a string: false only for `""` and `"0"` |
| EmailTemplates.Substitute | app/Models/EmailTemplate.php:184-186 | definition of the loop on subject and HTML body: `str_replace` for each entry in map order, each on the previous result |
| EmailTemplates.SubstituteIfTruthy | app/Models/EmailTemplate.php:184-190 | definition of the loop on the text body: as `Substitute`, but a step is skipped while the text is falsy |
| EmailTemplates.AllVariables | app/Models/EmailTemplate.php:182 | definition of `$allVariables`: the caller's variables merged over the system variables |
| EmailTemplates.Compile | app/Models/EmailTemplate.php:168-197 | subject and HTML body get every merged variable applied in order; an absent text body stays absent; a present one is substituted only while it is truthy |
| EmailTemplates.SubstituteWithoutKeys | app/Models/EmailTemplate.php:184-190 | a text in which no variable key occurs comes out unchanged |
| EmailTemplates.SubstituteIfTruthyWithoutKeys | app/Models/EmailTemplate.php:184-190 | a text body in which no variable key occurs comes out unchanged |
| EmailTemplates.FalsyTextUntouched | app/Models/EmailTemplate.php:187-189 | a text body of `""` or `"0"` comes out unchanged |
| EmailTemplates.GuardMattersOnlyForZeroKey | app/Models/EmailTemplate.php:187 | unless some key is `"0"`, the truthiness test changes nothing |
| EmailTemplates.SubstituteRender | app/Models/EmailTemplate.php:184-190 | on a well-formed template, with `{{name}}` keys and values without `{`, compiling fills exactly the slots that have a variable and keeps the rest |
| EmailTemplates.ResolveInSteps | app/Models/EmailTemplate.php:184-190 | applying the first variable and then the others is applying them all |
| EmailTemplates.CallerValueWins | app/Models/EmailTemplate.php:182 | a key the caller supplies, including a system key, takes the caller's value |
| EmailTemplates.DefaultUsedOtherwise | app/Models/EmailTemplate.php:176-182 | a key the caller does not supply takes the system value |
| EmailTemplates.MergedKeyOrder | app/Models/EmailTemplate.php:182-184 | the system keys come first, then the caller's other keys in the caller's order, with no key twice |
| EmailTemplates.LaterKeysSeeEarlierValues | app/Models/EmailTemplate.php:184-186 | a value inserted by one variable is replaced by a later variable |
| EmailTemplates.Bracketed | app/Models/EmailTemplate.php:348-349 | each data key `k` becomes the placeholder `{{k}}`, with its value and position kept |
| EmailTemplates.CompileTemplate | app/Models/EmailTemplate.php:346-354 | the data entries are applied in order, each as `{{key}}` |
| EmailTemplates.CompileTemplateResolves | app/Models/EmailTemplate.php:329-354 | on a well-formed template, with data keys that are non-empty names without braces and values without `{`, every placeholder with a data key is replaced by its value and every other one stays unchanged |
| EmailTemplates.BraceInKeyRewritesKeylessPlaceholder | app/Models/EmailTemplate.php:334-335 | the key condition is needed: the data key `a}` builds `{{a}}}`, which rewrites the placeholder `{{a}}` of the template `{{a}}}` although `a` has no key |
| TemplateCatalog.AvailableTypes | app/Models/EmailTemplate.php:84-93 | five types with their labels, no type listed twice |
| TemplateCatalog.ContentFor | app/Models/EmailTemplate.php:219-252 | a type without an entry in the table gets the general content |
| TemplateCatalog.CreateDefaultTemplate | app/Models/EmailTemplate.php:217-262 | the record takes name, subject and bodies from the type's content, has a text body, and keeps the requested type and creator |
| TemplateCatalog.KnownTypesAreAvailableTypes | app/Models/EmailTemplate.php:73-92 | the content table has an entry exactly for the listed types |
| TemplateCatalog.UnknownTypeFallsBackToGeneral | app/Models/EmailTemplate.php:252-259 | an unlisted type gets the general name, subject and bodies, but the record stores the requested type |
| Middleware.IsPublicPath | src/middleware.ts:10 | definition: the path is exactly `/login`, `/forgot-password` or `/reset-password` |
| Middleware.IsAdmin | src/middleware.ts:31 | definition: a token is present and its role is exactly `Admin` |
| Middleware.Decide | src/middleware.ts:18-35 | every request gets a redirect to `/home` or `/login`, or is served |
| Middleware.PublicPathsAreNotAdminRoutes | src/middleware.ts:10 | no public path starts with `/admin` |
| Middleware.RedirectToLoginExactly | src/middleware.ts:24-28 | the guard redirects to `/login` exactly on an anonymous request for a non-public path |
| Middleware.RedirectToHomeExactly | src/middleware.ts:18-33 | the guard redirects to `/home` exactly on a signed-in request for a public path, or for an `/admin…` path without the `Admin` role |
| Middleware.ServedExactly | src/middleware.ts:20-35 | the page is served exactly on an anonymous request for a public path, or a signed-in request for a non-public path outside `/admin` or with the `Admin` role |
| Middleware.AnonymousSeesOnlyPublicPages | src/middleware.ts:26-28 | an anonymous visitor is served only the three public paths, and is sent to `/login` from any other path, `/admin…` included |
| Middleware.AdminRoutesNeedAdminRole | src/middleware.ts:30-33 | nothing starting with `/admin` is served without the `Admin` role, and `/administrator` is such a path |
| Middleware.AdminServedEverythingButPublic | src/middleware.ts:20-35 | with the `Admin` role, every path except the three public ones is served |
| Middleware.RedirectTargetIsServed | src/middleware.ts:20-33 | the page a redirect points to is served to the same visitor, so the guard never loops |

## Left out

- Sequences.Dedup: returns the kept values renumbered from 0. PHP's `array_unique` keeps
  each value under its original key, so `extractPlaceholders` and `getPlaceholders` can
  return arrays with gaps in their keys. Those keys are given separately by
  `Sequences.KeptKeys`; the listing functions return the values only.
- EmailTemplates.GetPlaceholders: the contract does not say that every placeholder of the
  HTML and text bodies is listed. The method joins the three fields with spaces before
  matching. An unclosed `{{` in the subject or HTML body can then swallow the next field's
  placeholder (`EmailTemplates.OpenSubjectHidesHtmlPlaceholder`). Full coverage is proved
  under the condition that every `{{` is followed by a `}`
  (`EmailTemplates.PlaceholdersOfClosedFields`).
- EmailTemplates.CompileTemplateResolves and EmailTemplates.SubstituteRender: stated for
  well-formed templates whose values contain no `{`, and whose keys are placeholders of
  non-empty names without braces: bare data keys for `CompileTemplateResolves`, `{{name}}`
  keys for `SubstituteRender`. A key containing `}` can break the documented promise
  that placeholders without a key stay unchanged: the key `a}` builds `{{a}}}`, which
  swallows a keyless `{{a}}` followed by `}`
  (`EmailTemplates.BraceInKeyRewritesKeylessPlaceholder`). For other inputs the result is
  given only by the sequential definition that `EmailTemplates.Compile` and
  `EmailTemplates.CompileTemplate` are proved equal to.
- PHP arrays with integer-like keys: PHP stores a key such as `'5'` as the integer 5, and
  `array_merge` renumbers integer keys of `$variables` from 0, so `['5' => 'x']` ends up
  under key 0 and `str_replace` then searches for `"0"`. Variable maps here have string
  keys only and keep them as given.
- Values that are not strings: `config('app.url')` may be `null`, which `str_replace`
  treats as the empty string. The model takes `app.url` as a string.
- The clock and configuration (`date`, `now`, `config`) are inputs, not computed. Month
  names and the date format are not modelled.
- The regular-expression engine in general. Only the one pattern the engine uses is
  modelled, with the scan positions of `preg_match_all`.
- Persistence: `static::create`, the query scopes, the relations, `getDefaultTemplate`
  and `getStatistics` are database queries. `TemplateCatalog.CreateDefaultTemplate`
  returns the record that would be stored.
- Route guard: `getToken` (session decoding and signature checks), `NextResponse`, URL
  building and the `config.matcher` path filter are framework calls. The token and its
  role are inputs.
- The authentication options, the database client, the pages and layouts, and the
  database migration are not part of this model.
