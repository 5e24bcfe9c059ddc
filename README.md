# Table Over Two: a Dafny model of the blog's content client, theme state and listings

Table Over Two is a Next.js motocross blog. Its posts, pages and tags live in a Ghost content
backend. This project models the parts of the site that compute something:

- **The content client** (`src/api/ghost.ts`). It checks at load time that the API URL and key are
  configured. `buildUrl` builds a request URL through `URLSearchParams.set`. The five fetch operations
  turn every failure into `[]` or `null`. `getGhostPosts` and `getGhostTags` remove items with
  internal visibility; the slug lookups and `getPostsByTagSlug` return what the backend delivers. The
  network and the JSON parser are an input here: `server`, a function from request URL to response.
- **The theme provider** (`src/providers/theme.tsx`). It holds the table of eight team palettes and
  the mode ("light", "dark" or "system"). It also holds the team and the operating system's
  preference. Its synchronising effect writes `data-theme`, three CSS variables, the theme-color
  meta tag and localStorage. It loads preferences at mount, and it offers `toggleTheme` and
  `setTeam`. The provider is a class whose methods change its fields. The colour derivation, the
  toggle and the storage fallbacks are functions.
- **The archive page** (`src/app/archive/page.tsx`). `groupPostsByYear` is a loop over the posts
  filling a map of year to posts. The years are then listed newest first.
- **The topics page** (`src/app/topics/page.tsx`). Nested loops fill `postsByTag`. Each public tag
  gets a card with the first three posts of its group, or the "No articles available" fallback.
  `postsByTag` is an object literal. A slug it does not own but inherits from `Object.prototype`
  (such as "constructor") reads a function, so the page can throw. The model tracks this.
- **The sidebar** (`src/app/sidebar.tsx`). It holds the navigation links, the toggle's label and
  the connect links, each drawn in a colour that depends on the theme.

Modules and files:

- `wrappers.dfy`: Option, Result and JavaScript truthiness of an optional string.
- `js_object.dfy`: the members every object literal inherits from `Object.prototype`
  (ECMAScript 2024, sections 20.1.3 and B.2.2), with their `length`.
- `types.dfy`: Post, Tag and Author.
- `sequences.dfy`: order-preserving subsequences.
- `search_params.dfy`: `URLSearchParams` `set`/`get` on a list of pairs, and the decimal
  `toString()` of integers.
- `ghost_client.dfy`: the content client.
- `grouping.dfy`: the keyed grouping that both pages run.
- `archive.dfy`, `topics.dfy`, `theme.dfy`, `sidebar.dfy`.

## Model

| member | source | states |
|---|---|---|
| GhostClient.LoadConfig | src/api/ghost.ts:2-8 | configuration succeeds exactly when both environment values are set and non-empty; the key is taken from the admin-key variable |
| SearchParams.SetProperties | src/api/ghost.ts:31-33 | `set` on a query without duplicate names keeps it duplicate-free and keeps the first pair's name; afterwards `get(name)` is the new value and every other name reads as before |
| SearchParams.SetInPlace | src/api/ghost.ts:31-33 | `set` of a name already present overwrites that pair in its position |
| SearchParams.SetAppends | src/api/ghost.ts:31-33 | `set` of an absent name appends the pair at the end |
| SearchParams.NaturalString | src/api/ghost.ts:33 | a number's `toString()` is a non-empty run of decimal digits without a leading zero |
| SearchParams.ParseDigits | src/app/archive/page.tsx:61 | a run of decimal digits, with or without a leading minus, is read back as its value |
| SearchParams.DecimalRoundTrip | src/app/archive/page.tsx:14 | reading back an integer's decimal string yields that integer, so distinct years give distinct record keys |
| GhostClient.QueryProperties | src/api/ghost.ts:30-34 | the query holds each name once with `key` first; every name reads the caller's last value for it, else the configured key for `key`; no other name is present |
| GhostClient.QueryOfFreshNames | src/api/ghost.ts:31-34 | with distinct caller names other than `key`, the query is `key` followed by the caller parameters in order |
| GhostClient.RequestUrl | src/api/ghost.ts:30-34 | the request URL is `<apiUrl>/ghost/api/content/<endpoint>/`; its query holds each name once with `key` first, and each name reads the caller's last value for it, else the key |
| GhostClient.BuildUrl | src/api/ghost.ts:26-36 | the loop builds exactly `RequestUrl`: the location, and the query of `set("key")` followed by one `set` per parameter, with the properties above |
| GhostClient.PublicPosts | src/api/ghost.ts:57-61 | a post is kept exactly when it has no internal tag; the kept posts are in backend order |
| GhostClient.PublicPostsIdempotent | src/api/ghost.ts:57-61 | filtering posts twice equals filtering once |
| GhostClient.PublicPostsCount | src/api/ghost.ts:57-61 | each public post is kept as often as it occurs; internal posts are dropped |
| GhostClient.PublicTags | src/api/ghost.ts:165-168 | a tag is kept exactly when it is not internal, in order; `PublicTagsCount` gives how often each is kept |
| GhostClient.PublicTagsCount | src/api/ghost.ts:165-168 | each public tag is kept as often as it occurs; internal tags are dropped |
| GhostClient.PublicTagsIdempotent | src/api/ghost.ts:165-168 | filtering tags twice equals filtering once |
| GhostClient.GetGhostPosts | src/api/ghost.ts:48-68 | no returned post has an internal tag; the result is `[]` unless the response is ok with an array; otherwise it is exactly `PublicPosts` of the delivered array: the public posts in order, each as often as delivered (`PublicPostsCount`) |
| GhostClient.GetGhostPostsWithinLimit | src/api/ghost.ts:48-63 | the client does not truncate: the result stays within `limit` whenever the backend does |
| GhostClient.FirstOrNull | src/api/ghost.ts:87-89 | the result is present exactly when the response is ok with a non-empty array, and then it is the first element |
| GhostClient.GetGhostPostBySlug | src/api/ghost.ts:76-94 | the result is the first post of a delivered non-empty array, else null |
| GhostClient.GetGhostPageBySlug | src/api/ghost.ts:102-120 | the same, against the `pages` resource |
| GhostClient.PostBySlugHonoursFilter | src/api/ghost.ts:78-89 | the client does not check the slug: the post carries the requested slug whenever the backend honours the filter |
| GhostClient.GetPostsByTagSlug | src/api/ghost.ts:129-149 | a delivered array is returned exactly as delivered, internal posts included; any failure gives `[]` |
| GhostClient.GetGhostTags | src/api/ghost.ts:156-175 | every returned tag is public; the result is `[]` on failure; otherwise it is exactly `PublicTags` of the delivered array: the public tags in order, each as often as delivered (`PublicTagsCount`) |
| GhostClient.PostsQuery | src/api/ghost.ts:50 | `getGhostPosts` sends `key`, `limit` in decimal, and `include=tags,authors` |
| GhostClient.PostBySlugQuery | src/api/ghost.ts:78-81 | `getGhostPostBySlug` sends `key`, `filter=slug:<slug>`, and `include=tags,authors,primary_author` |
| GhostClient.PageBySlugQuery | src/api/ghost.ts:104-107 | `getGhostPageBySlug` sends `key`, `filter=slug:<slug>`, and `include=authors` |
| GhostClient.PostsByTagQuery | src/api/ghost.ts:134-138 | `getPostsByTagSlug` sends `key`, `filter=tag:<slug>`, `limit`, and `include=tags,authors` |
| GhostClient.TagsQuery | src/api/ghost.ts:158 | `getGhostTags` sends `key`, `include=count.posts`, and `limit=all` |
| GhostClient.RaceDayScenario | src/api/ghost.ts:57-63 | with one public and one internal-only post delivered, the listing holds only the public one |
| Grouping.GroupsSnoc | src/app/archive/page.tsx:15-18 | one more entry creates its key's bucket if missing and appends the value to it |
| Grouping.BucketEmpty | src/app/archive/page.tsx:15-18 | a key has a non-empty bucket exactly when it occurs |
| Grouping.BucketCount | src/app/archive/page.tsx:15-18 | a bucket holds each value exactly as often as the entries pair it with the key |
| Grouping.BucketOrder | src/app/archive/page.tsx:15-18 | a bucket keeps entry order |
| Grouping.GatherPermutation | src/app/archive/page.tsx:60-76 | reading every key's bucket once, in any order, lists the values exactly as often as they occur |
| Archive.YearEntriesValues | src/app/archive/page.tsx:13-14 | the year entries list the posts themselves, in order |
| Archive.YearEntriesCount | src/app/archive/page.tsx:13-14 | a (year, post) entry occurs as often as the post, and only for the post's own year |
| Archive.YearGroupsProperties | src/app/archive/page.tsx:12-21 | every post's year is a key; groups are non-empty subsequences of the posts; a group holds each post of its year as often as the input does, and no other post |
| Archive.GroupPostsByYear | src/app/archive/page.tsx:12-21 | the loop yields the year grouping: empty for no posts, the keys exactly the posts' years, and non-empty ordered groups |
| Archive.InsertDescending | src/app/archive/page.tsx:61 | inserting a year keeps the list strictly descending and adds exactly that year |
| Archive.YearsDescending | src/app/archive/page.tsx:60-61 | the keys are listed strictly newest first, each exactly once |
| Archive.ArchiveListsEveryPostOnce | src/app/archive/page.tsx:60-76 | the sections come newest year first, one per key, and together list every post exactly as often as it was fetched |
| Archive.YearGroupCount | src/app/archive/page.tsx:12-21 | for one year and one post: how often the post is filed under the year, and that a fetched post's own year is a key |
| Archive.YearGroupMember | src/app/archive/page.tsx:12-21 | a post filed under a year is a fetched post of that year |
| Archive.SectionsOfPublicPosts | src/app/archive/page.tsx:41-47 | sections built from public posts list only public posts, each under its own year |
| Archive.ArchivePageShowsOnlyPublic | src/app/archive/page.tsx:41-47 | the archive of `getGhostPosts(100)` shows no post with an internal tag, and each post under its own year |
| Topics.TagPairs | src/app/topics/page.tsx:27-31 | a post contributes one entry per tag |
| Topics.TagPairsCount | src/app/topics/page.tsx:27-31 | a post contributes one (slug, post) entry per tag carrying that slug |
| Topics.EntryCountIsProduct | src/app/topics/page.tsx:26-33 | counted post by post, the (slug, post) entries number the post's occurrences times its tags with that slug |
| Topics.TagEntriesEntryCount | src/app/topics/page.tsx:26-33 | the pushed entries contain (slug, post) exactly as often as the post-by-post count says |
| Topics.TagEntriesCount | src/app/topics/page.tsx:26-33 | (slug, post) is pushed once per occurrence of the post times its tags with that slug |
| Topics.TagEntriesValues | src/app/topics/page.tsx:26-33 | the pushes list each post once per tag, in order, and number as many as all tags together |
| Topics.TagGroupMember | src/app/topics/page.tsx:25-33 | for one slug and one post: the post's multiplicity in the group, and that it is in the group exactly when it carries the slug |
| Topics.TagGroupsProperties | src/app/topics/page.tsx:25-33 | multiplicities as above; a post is in a group exactly when it carries that slug; untagged posts are in none; groups are non-empty and ordered |
| Topics.TagGroupsTotal | src/app/topics/page.tsx:25-33 | reading all groups once lists as many posts as there are tags over all posts |
| Topics.PushTags | src/app/topics/page.tsx:27-32 | on a record whose own keys are not inherited names, as the grouping keeps it, the inner loop throws exactly when the post carries a slug inherited from `Object.prototype` (`push` on a non-array); otherwise it appends the post to its tags' groups, creating missing ones |
| Topics.GroupPostsByTag | src/app/topics/page.tsx:25-33 | the nested loops throw exactly when some post carries an inherited slug; otherwise they yield the tag grouping, every listed post carries its group's slug, and every carried slug is a key |
| Topics.PrefixKeysNotInherited | src/app/topics/page.tsx:25-33 | while no post so far carries an inherited slug, the record owns no inherited name |
| Topics.TagEntriesSnoc | src/app/topics/page.tsx:26-32 | one more post adds its tag entries after those of the posts before it |
| Topics.TagGroupsMembership | src/app/topics/page.tsx:25-33 | a post is in a slug's group exactly when it carries the slug, and every carried slug is a key |
| Topics.GroupKeysNotInherited | src/app/topics/page.tsx:25-33 | when the grouping does not throw, no key of `postsByTag` is an inherited name |
| Topics.TopicCard | src/app/topics/page.tsx:77-94 | the card throws exactly when the slug is not an own key but an inherited member with positive `length` (`.slice` of a function); otherwise the fallback shows exactly when the group is missing or empty, and the card lists the first 1-3 posts of the group, the whole group when it has fewer than three |
| Topics.TopicCardOfPosts | src/app/topics/page.tsx:25-94 | for a grouping that did not throw: the card throws exactly for inherited slugs with positive `length`; otherwise the fallback shows exactly when no fetched post carries the slug, and listed posts are fetched posts that carry it |
| Topics.TopicCards | src/app/topics/page.tsx:47-104 | one card per fetched tag, in order |
| Topics.TopicsPage | src/app/topics/page.tsx:20-104 | the page throws exactly when some fetched post carries an inherited slug or some fetched tag's slug is inherited with positive `length`; otherwise it has one card per fetched tag, in order, each the tag's card |
| Topics.TopicsPageShowsOnlyPublic | src/app/topics/page.tsx:20-94 | whenever the page renders, it shows only public tags; each card lists at most three fetched public posts that carry its slug, or the fallback exactly when none does |
| Topics.ConstructorTagBreaksPage | src/app/topics/page.tsx:77-79 | a delivered public tag with slug "constructor" makes the page throw, whatever the posts |
| Topics.InheritedSlugsWithoutLength | src/app/topics/page.tsx:77 | the tags "toString" and "__proto__" read truthy members whose `length` is 0 or missing, so their cards show the fallback |
| Topics.DuplicateSlugListedTwice | src/app/topics/page.tsx:27-31 | a post that lists the same slug twice is pushed twice onto that group |
| Theme.Toggled | src/providers/theme.tsx:154-164 | toggling always yields an explicit "light" or "dark", different from the mode in effect |
| Theme.ToggleFlipsAppearance | src/providers/theme.tsx:154-164 | for the three admitted modes, toggling switches the page between light and dark |
| Theme.ToggleTwice | src/providers/theme.tsx:154-164 | toggling twice restores an explicit mode; from "system" it ends in the system's current scheme, never back in "system" |
| Theme.ToggleFromUnknownMode | src/providers/theme.tsx:108-115 | a stored mode outside the three is applied as is, shows light colours, and toggles to "light" with no visible change |
| Theme.AppliedTheme | src/providers/theme.tsx:124 | "system" applies the system's scheme, an explicit scheme is kept, and every admitted mode gives a scheme |
| Theme.ThemeColors | src/providers/theme.tsx:126-140 | colours exist exactly for configured teams and names inherited from `Object.prototype`; the background is #1f1f1f exactly in dark, else #ffffff; any mode other than dark uses a configured team's light link and accent; an inherited name gives "undefined" link and accent |
| Theme.HexDefaultYamaha | src/providers/theme.tsx:31-44 | every colour configured for default and yamaha is a `#rrggbb` colour |
| Theme.HexHondaKawasaki | src/providers/theme.tsx:45-57 | every colour configured for honda and kawasaki is a `#rrggbb` colour |
| Theme.HexKtmGasGas | src/providers/theme.tsx:58-70 | every colour configured for ktm and gasgas is a `#rrggbb` colour |
| Theme.HexHusqvarnaTriumph | src/providers/theme.tsx:71-84 | every colour configured for husqvarna and triumph is a `#rrggbb` colour |
| Theme.TeamThemesHex | src/providers/theme.tsx:30-85 | every configured colour of every team is a `#rrggbb` colour |
| Theme.AllColorsAreHex | src/providers/theme.tsx:130-140 | every CSS colour the effect writes for a configured team is a `#rrggbb` colour |
| Theme.DarkLinkOverride | src/providers/theme.tsx:130-133 | in dark mode a team's non-empty dark link override is the link colour |
| Theme.DarkAccentOverride | src/providers/theme.tsx:135-138 | in dark mode a team's non-empty dark accent override is the accent colour |
| Theme.DarkFallsBackToLight | src/providers/theme.tsx:130-138 | in dark mode a link or accent without a non-empty override is the team's light colour |
| Theme.DarkColorsOfTwoTeams | src/providers/theme.tsx:51-77 | husqvarna swaps its link and accent in dark mode; kawasaki gets a dark link and keeps its accent |
| Theme.InheritedTeamColors | src/providers/theme.tsx:126-138 | a team "constructor" or "__proto__" reads no colours and gets "undefined" link and accent, without throwing |
| Theme.NoOverridesSameColors | src/providers/theme.tsx:130-140 | a team without dark overrides keeps its link and accent in both schemes; only the background changes |
| Theme.StoredOr | src/providers/theme.tsx:108-116 | the loaded mode or team is never empty; it is the stored value when that is present and non-empty, and the fallback ("system" for the mode, "default" for the team) otherwise |
| Theme.PersistRoundTrip | src/providers/theme.tsx:149-150 | what the effect stores is what the next load reads back |
| Theme.TeamKeysNonEmpty | src/providers/theme.tsx:30-85 | every team that resolves, configured or inherited, has a non-empty key, so a persisted team survives the `||` fallback |
| Theme.ThemeProvider.constructor | src/providers/theme.tsx:89-92 | initial state: mode "system", team "default", a light system, not hydrated |
| Theme.ThemeProvider.ApplyTheme | src/providers/theme.tsx:121-151 | nothing changes before hydration. Afterwards `data-theme` is the applied mode. A team that is neither configured nor inherited throws after `data-theme` and leaves the variables, the meta tag and storage as they were. Any other team sets exactly the three variables, the meta colour and the two storage keys, every other entry staying, which leaves the page in step with the state |
| Theme.ThemeProvider.UpdateSystemTheme | src/providers/theme.tsx:95-104 | records the media query's answer; before hydration nothing else changes, afterwards the effect rewrites the page as above without throwing |
| Theme.ThemeProvider.LoadPreferences | src/providers/theme.tsx:107-118 | mode and team become the stored values or their fallbacks, and the provider is hydrated. The effect throws exactly when the stored team neither is configured nor is inherited, and then leaves the variables, the meta tag and storage unchanged; otherwise it writes them as above |
| Theme.ThemeProvider.ToggleTheme | src/providers/theme.tsx:154-164 | the mode becomes the toggled mode and the applied mode changes. The effect writes the variables, meta tag and storage keys as above, every other entry staying, and a reload restores the new state |
| Theme.ThemeProvider.SetTeam | src/providers/theme.tsx:90 | the team is replaced. The effect throws exactly when the team neither is configured nor is inherited, leaving the variables, meta tag and storage unchanged. Otherwise it writes them as above, and a reload restores the state |
| Sidebar.HrefsAreKeys | src/app/sidebar.tsx:17-57 | navigation and connect hrefs are distinct, as list keys must be |
| Sidebar.LinkColor | src/app/sidebar.tsx:70 | as written, a link's own colour wins; otherwise every mode but "light" is coloured as if the page were dark |
| Sidebar.MemoizedConnectLinks | src/app/sidebar.tsx:63-74 | every connect link, in order, with its href, text and icon, coloured by `defaultColor`, else by the mode |
| Sidebar.OnlyXDependsOnMode | src/app/sidebar.tsx:25-74 | only the X icon depends on the mode: black in "light", white otherwise; the others keep their brand colour |
| Sidebar.ToggleLabel | src/app/sidebar.tsx:105-150 | the label reads "Dark mode" exactly in mode "light" |
| Sidebar.XIconInvisibleInSystemLight | src/app/sidebar.tsx:70 | as written, mode "system" on a light system draws the X icon white on the white page, for every team that resolves |
| Sidebar.ToggleLabelMisleadsInSystemLight | src/app/sidebar.tsx:105-150 | as written, mode "system" on a light system offers "Light mode" on a light page, and the click makes it dark |
| Sidebar.ShownConnectLinks | src/app/sidebar.tsx:63-74 | corrected: the same links, coloured by `defaultColor`, else by whether the page is dark |
| Sidebar.CorrectedAgreesOnExplicitModes | src/app/sidebar.tsx:70 | in modes "light" and "dark" the corrected colours are the source's |
| Sidebar.ConnectIconsVisible | src/app/sidebar.tsx:70 | corrected: every icon has a colour that differs from the page background, for every mode, system scheme and team that resolves |
| Sidebar.ToggleLabelFor | src/app/sidebar.tsx:105-150 | corrected: the label reads "Dark mode" exactly when the page is not dark |
| Sidebar.ToggleLabelNamesTarget | src/app/sidebar.tsx:105-150 | corrected: the label names the scheme a click leads to |
| Sidebar.SidebarView | src/app/sidebar.tsx:59-186 | as written, the sidebar shows the navigation links, the label and the connect links chosen by the mode; in mode "system" the label is "Light mode" and the X icon white, whatever the system scheme |
| Sidebar.CorrectedSidebarView | src/app/sidebar.tsx:59-186 | corrected: the label and the colours follow the scheme shown; in modes "light" and "dark" it is the sidebar the source draws |

## Left out

- The HTTP request, the JSON parser and `console.error` are not modelled. `server` stands for them:
  the response the backend gives for a request URL. A body whose field is missing or not an array
  is `Malformed` or `NotArray`.
- `process.env` is an input to `LoadConfig`. The thrown configuration error is its `Err` result.
- URL serialisation is not modelled. That covers percent-encoding of the query, `url.toString()`,
  and the URL constructor's normalisation (or its exception on a malformed base). A URL is its
  location string plus the query as a list of pairs.
- GhostClient.PostsParams: `limit` is a JavaScript number. Only integers are modelled, since
  every caller passes an integer. The decimal rendering is JavaScript's `toString()` only for
  magnitudes below 10^21; larger numbers print in exponent form, which is not modelled.
- GhostClient.GetGhostTags: the `tag?.` guard against a null array element is not modelled. Tags
  in a delivered array are well-formed records.
- GhostClient.GetGhostPosts: delivered posts are well-formed records. A null element, a `tags`
  field that is neither an array nor null/undefined, or a `tags` array holding a null element
  makes the filter throw, and the code then returns `[]`. That path is not modelled. A `tags`
  field that is null or absent is modelled: the post has no tags and is kept.
- GhostClient.GetPostsByTagSlug: the code returns internal posts as delivered. The model follows
  the code, not the consistent filtering one might expect across the client.
- Archive: `new Date(published_at).getFullYear()` depends on the local time zone. It is the
  parameter `yearOf`.
- Archive: the groups are keyed by the year as an integer, not by its decimal string. The two
  keyings coincide because decimal rendering is injective (`SearchParams.DecimalRoundTrip`).
  `Number(b) - Number(a)` on those strings is the integer order.
- Archive.GroupPostsByYear: `yearOf` yields an integer. An unparseable `published_at` gives the
  year `NaN`, filed under the key "NaN", which `Number(b) - Number(a)` cannot order. That case
  is not modelled.
- Theme: React mechanics are not modelled: rendering, context, the `useTheme` error outside a
  provider, and removing the media-query listener. Each effect run is part of the method that
  changes its dependencies. The provider renders nothing before hydration, so `toggleTheme` and
  `setTeam` require a hydrated provider.
- Theme.ThemeProvider: after the effect has thrown (`crashed`), React unmounts the tree and no
  handler can run. Every method therefore requires `!crashed`.
- The meta theme-color element is assumed present, as the root layout renders it with content
  `#ffffff`.
- Inherited names other than those of `Object.prototype` are not modelled, for example a
  prototype that a library has extended. Own keys always win over inherited ones.
- The `bubble` and `teamName` fields are carried in the table but not used by the core.
- Presentational components are not part of this model: the home page, the post page, the
  about page, the per-tag page and the layout. The same goes for `src/lib/*` and metadata
  generation.
- Sidebar: icons are named by an enumeration. The Font Awesome icon objects are not modelled.

## Findings

| source | as written | input that shows it | evidently intended | confidence | as-written member | corrected member |
|---|---|---|---|---|---|---|
| src/app/sidebar.tsx:70 | the X icon's colour is `lightColor` only when the mode is "light", and `darkColor` ("#FFFFFF") in every other mode | mode "system" with a light system preference: the page background is "#ffffff" and the X icon is drawn "#FFFFFF" | choose the colour from the scheme the page is shown in | medium, not executed | Sidebar.XIconInvisibleInSystemLight | Sidebar.ConnectIconsVisible |
| src/app/sidebar.tsx:105 | the toggle reads "Dark mode" only in mode "light", and "Light mode" in every other mode | mode "system" with a light system preference: the page is light, the button offers "Light mode", and clicking makes the page dark | label the button with the scheme a click leads to | medium, not executed | Sidebar.ToggleLabelMisleadsInSystemLight | Sidebar.ToggleLabelNamesTarget |
