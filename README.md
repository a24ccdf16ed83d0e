# pilipiliweb-module core, modelled in Dafny

This project models the core of pilipiliweb-module, a helper library for writing PrestaShop modules. It covers four classes:

- **`Db`**. The static database facade: the `where` builder that turns a criteria map into a SQL condition, the routing of array criteria in `delete` and `update`, and the memoised connection handle of `getDb`.
- **`Schema`**. The DDL builder: `CREATE TABLE IF NOT EXISTS` from a column map and a primary-key list, and `DROP TABLE IF EXISTS`.
- **`Form`**. The admin form builder, modelled as a class whose fields the methods update in place. It covers the field, switch, header, button and value setters, the boolean setters, `configure`, and the routing of request-selected messages to the controller's error, confirmation and warning lists.
- **`Module`**. The module base class, modelled as a class. It covers:
  - the configuration naming scheme (`PW_NAME_MODULE` followed by the upper-cased key), with `getConfig`, `setConfig` and `deleteConfig`;
  - the `install` and `uninstall` sequences, and `createTables` and `deleteTables`;
  - `hasErrors`, `shouldDisplayForm`, `url` and `write`.

Files:

- `Php.dfy` (module `Php`) models the PHP values the code handles. These are:
  - ordered arrays as sequences of key/value pairs, with `$a[k] = v`, `$a[] = v`, `array_replace` and lookups;
  - `implode`;
  - truthiness.
- `Framework.dfy` (module `Framework`) models the framework as far as the core talks to it:
  - one ordered trace of the calls the core makes into it;
  - its configuration table, as a map;
  - the current controller's notice lists.
- `Db.dfy`, `Schema.dfy`, `Form.dfy` and `Module.dfy` model one source file each (modules `CoreDb`, `CoreSchema`, `CoreForm`, `CoreModule`).

Answers from the framework are parameters of the operations that receive them. These are the results of `execute`, `parent::install()`, `parent::uninstall()`, `registerHook`, `Configuration::updateValue` and `Configuration::deleteByName`. The escape functions `bqSQL` and `pSQL` are uninterpreted functions (`CoreDb.Escaper`). `Tools::isSubmit` and `Tools::getValue` are functions passed in. The state changes are stated on the trace, so orderings can be proved: defaults are written before the base install, and hooks are registered only after the tables.

Three points of the code that the model follows closely:

- **Install errors and `hasErrors`.** `install` appends its messages to the module's own `_errors` (src/Core/Module.php:203, 333), not to the controller's `errors`. `hasErrors` reads only the controller's `errors` list (src/Core/Module.php:262). So a failed hook registration during install does not make `hasErrors()` true: `CoreModule.Module.Install` states that the controller's notice lists are unchanged, so `HasErrors()` keeps its value across an install.
- **Column names in `where`.** Column names pass through `bqSQL` and are then backquoted (src/Core/Db.php:91), and so they are in the model.
- **Hooks on uninstall.** `uninstall` does not unregister hooks itself. That happens inside `parent::uninstall()` (src/Core/Module.php:224), which is a single framework call here.

## Model

| member | source | states |
|---|---|---|
| Php.AssignSpec | src/Core/Form.php:191-194 | `$a[k] = v` sets `k`, leaves every other key's value alone, keeps existing keys in place, appends a new key last and keeps keys unique |
| Php.ReplaceSpec | src/Core/Form.php:191-194 | `array_replace`: a key of the override array takes its value, every other key keeps the base value; base keys keep their positions at the front; no other keys appear; keys stay unique |
| Php.PushSpec | src/Core/Form.php:332 | `$a[] = v` appends exactly one entry under a fresh integer key and keeps the earlier entries and key uniqueness |
| Php.JoinLength | src/Core/Db.php:105 | `implode` places exactly one separator between neighbouring parts |
| CoreDb.Where | src/Core/Db.php:87-106 | the loop builds exactly `WhereOf(criteria)`: the conditions in criteria order, joined by `) AND (` inside one pair of parentheses |
| CoreDb.ConditionsSpec | src/Core/Db.php:90-103 | one condition per criteria entry, and the i-th condition renders the i-th entry |
| CoreDb.ClauseRendering | src/Core/Db.php:91-100 | each condition is the backquoted escaped column and a space, then `IS NULL` for null (tested first), a quoted escaped value for strings, `= 1`/`= 0` for booleans, and an unquoted escaped value otherwise |
| CoreDb.WhereEmpty | src/Core/Db.php:105 | no criteria give exactly `()` |
| CoreDb.WhereSingle | src/Core/Db.php:105 | one entry gives its condition inside one pair of parentheses |
| CoreDb.WhereAppend | src/Core/Db.php:102-105 | a further entry adds `) AND (` and its condition just before the closing parenthesis, so entries keep their order |
| CoreDb.WhereLength | src/Core/Db.php:105 | the output length is the conditions' total length, plus n - 1 separators, plus two parentheses |
| CoreDb.WhereTrueExample | src/Core/Db.php:96-97 | `{active: true}` gives `` (`active` = 1) `` |
| CoreDb.WhereFalseExample | src/Core/Db.php:96-97 | `{active: false}` gives `` (`active` = 0) `` |
| CoreDb.WhereNullExample | src/Core/Db.php:92-93 | `{deleted_at: null}` gives `` (`deleted_at` IS NULL) `` |
| CoreDb.WhereIntExample | src/Core/Db.php:98-99 | `{id: 5}` gives `` (`id` = 5) ``, unquoted |
| CoreDb.Db.GetDb | src/Core/Db.php:21-28 | the framework instance is fetched on the first call only; later calls return the cached handle without fetching again |
| CoreDb.Db.Delete | src/Core/Db.php:16-19 | exactly one framework delete, whose condition is `where(criteria)` for an array and the argument unchanged otherwise; the framework's answer is returned |
| CoreDb.Db.Update | src/Core/Db.php:77-80 | exactly one framework update with the data unchanged and the condition routed as for `delete`; the answer is returned |
| CoreSchema.ColumnClausesSpec | src/Core/Schema.php:10-12 | one definition per column, in column order, each the backquoted name and the raw type |
| CoreSchema.PrimaryQuotesEach | src/Core/Schema.php:34-37 | the key clause is `PRIMARY KEY (` followed by every key column backquoted and separated by `, `, then `)` |
| CoreSchema.DefinitionsLayout | src/Core/Schema.php:14-16 | the key clause appears only for a non-empty key list, and then after every column definition |
| CoreSchema.ExampleDefinitions | src/Core/Schema.php:10-16 | one `id INT` column keyed on `id` gives `` `id` INT, PRIMARY KEY (`id`) `` |
| CoreSchema.CreateExample | src/Core/Schema.php:18-24 | the full `CREATE TABLE IF NOT EXISTS` statement for that example, with the prefix, the engine and `utf8` |
| CoreSchema.Create | src/Core/Schema.php:7-25 | the loop builds the definitions; exactly one `execute` of the prefixed `CREATE TABLE IF NOT EXISTS` statement; its answer is returned |
| CoreSchema.Drop | src/Core/Schema.php:27-32 | exactly one `execute` of `` DROP TABLE IF EXISTS `<prefix><name>` ``; its answer is returned |
| CoreForm.FieldDescriptorSpec | src/Core/Form.php:189-197 | a field's options override its defaults; `name` and `type` come first and stay first; every other key comes from the options |
| CoreForm.SwitchDescriptorSpec | src/Core/Form.php:173-178 | a switch is a field of type `switch` whose `values` are the on (1) and off (0) pair, unless the options supply `type` or `values` |
| CoreForm.HeaderSpec | src/Core/Form.php:222-235 | the header always has the title, and has the icon (or image) exactly when it is truthy |
| CoreForm.DescriptorSpec | src/Core/Form.php:90-104 | the `form` entry always has `input`, and has `legend`, `submit` and `buttons` exactly when the header, submit button and buttons are truthy |
| CoreForm.DescriptorLookup | src/Core/Form.php:90-104 | under any key the `form` entry holds `input` for `input`, the header, submit button or buttons under `legend`, `submit` or `buttons` when truthy, and nothing else |
| CoreForm.RoutedSpec | src/Core/Form.php:406-415 | an `error`, `confirm`, `warning` or `info` message goes at the end of exactly one list (`info` goes to warnings); nothing is removed; any other type adds nothing |
| CoreForm.DisplayedSpec | src/Core/Form.php:420-429 | walking the message groups only appends, and appends exactly one notice per routable group whose request-selected message is set |
| CoreForm.Form.AddField | src/Core/Form.php:189-197 | `fields[name]` becomes the field's descriptor; an earlier field of that name is replaced in place, a new one goes last, and every other field is unchanged |
| CoreForm.Form.AddSwitch | src/Core/Form.php:173-178 | adds a `switch` field whose options are the on/off `values`, overridden by the given options |
| CoreForm.Form.SetHeader | src/Core/Form.php:222-235 | the header becomes the title, then the icon and the image when they are truthy |
| CoreForm.Form.SetSubmitButton | src/Core/Form.php:315-320 | the submit button becomes `{title}` overridden by the options |
| CoreForm.Form.AddButton | src/Core/Form.php:330-335 | appends one button after the earlier ones, which are kept |
| CoreForm.Form.SetValue | src/Core/Form.php:379-384 | sets the one key of `fields_value` and leaves every other key alone |
| CoreForm.Form.SetValues | src/Core/Form.php:393-398 | `fields_value` becomes the given map |
| CoreForm.Form.SetShowToolbar | src/Core/Form.php:286-291 | stores the argument cast to bool |
| CoreForm.Form.SetShowCancelButton | src/Core/Form.php:272-277 | stores the argument cast to bool |
| CoreForm.Form.ConfigureHeader | src/Core/Form.php:117-119 | the header step runs, and does nothing else in this class |
| CoreForm.Form.ConfigureFields | src/Core/Form.php:113-115 | the fields step runs, and does nothing else in this class |
| CoreForm.Form.ConfigureButtons | src/Core/Form.php:109-111 | the buttons step runs, and does nothing else in this class |
| CoreForm.Form.ConfigureValues | src/Core/Form.php:121-123 | the values step runs, and does nothing else in this class |
| CoreForm.Form.Configure | src/Core/Form.php:83-107 | runs the header, fields, buttons and values steps in that order, then stores `[[form => descriptor]]` built from the current properties |
| CoreForm.Form.DisplayMessage | src/Core/Form.php:406-415 | the controller's notices are routed as `RoutedSpec` states |
| CoreForm.Form.DisplayMessages | src/Core/Form.php:420-429 | the loop displays, group by group in order, each message the request selects that is set; a non-array `messages` does nothing |
| CoreModule.ConfigKeyLayout | src/Core/Module.php:79-82 | a configuration name is `PW_NAME_MODULE` followed by the key upper-cased character by character, and contains no lower-case letter |
| CoreModule.ConfigKeyCaseInsensitive | src/Core/Module.php:117 | two keys address the same configuration entry if and only if they agree up to case |
| CoreModule.ConfigRoundTrip | src/Core/Module.php:114-121 | reading back a key (under any spelling equal up to case) with the same serialise flag returns the value written, provided unserialise undoes serialise |
| CoreModule.ConfigWriteIndependent | src/Core/Module.php:116-120 | writing one key leaves every key that differs from it up to case unchanged |
| CoreModule.ConfigDeleteErases | src/Core/Module.php:130-133 | after a delete, every spelling of the key reads `false` |
| CoreModule.Attempted | src/Core/Module.php:331-346 | a loop that stops at the first failure consumes at least one outcome when there is any, and never more than all of them |
| CoreModule.AttemptedSpec | src/Core/Module.php:331-346 | with no failure, every table is attempted; otherwise the attempts stop exactly at the first failure |
| CoreModule.AttemptedAt | src/Core/Module.php:332-343 | a failure preceded only by successes is the last attempt |
| CoreModule.HookErrorsCount | src/Core/Module.php:201-213 | the hook loop adds exactly one error per refused hook, so none exactly when every hook was registered |
| CoreModule.HookErrorsComplete | src/Core/Module.php:202-211 | every refused hook has its error |
| CoreModule.HookErrorsSound | src/Core/Module.php:202-211 | every hook error names a refused hook |
| CoreModule.WithDefaultsStored | src/Core/Module.php:194-196 | an accepted default that no later default overrides up to case is what the store holds for its key |
| CoreModule.WithDefaultsUntouched | src/Core/Module.php:194-196 | configuration names the defaults do not address keep their values through install |
| CoreModule.WithoutDefaultsErased | src/Core/Module.php:225-227 | every accepted delete of a default's key leaves that key absent |
| CoreModule.WithoutDefaultsUntouched | src/Core/Module.php:225-227 | configuration names the defaults do not address survive uninstall |
| CoreModule.InstallOrder | src/Core/Module.php:194-198 | install writes every default before the base install, in order, whatever happens later; the base install comes right after them; no configuration write follows |
| CoreModule.InstallGates | src/Core/Module.php:198-216 | tables are created only after a successful base install; hooks are registered only if the tables too were created, and then every hook is tried |
| CoreModule.InstallErrorsSpec | src/Core/Module.php:198-216 | after a successful base install, install succeeds if and only if it appended no error; a failing table adds exactly one error; otherwise there is one error per refused hook |
| CoreModule.UninstallGates | src/Core/Module.php:222-233 | `deleteTables` is not called when the base uninstall fails; configuration is deleted only when both steps succeeded, and then for every default |
| CoreModule.AppendedConcat | src/Core/Module.php:409-413 | writing a list is the same as writing its two halves one after the other |
| CoreModule.Module.GetConfig | src/Core/Module.php:77-85 | reads the entry under the prefixed, upper-cased name (`false` when absent), unserialised only when asked |
| CoreModule.Module.SetConfig | src/Core/Module.php:114-121 | one write under the prefixed, upper-cased name, serialised only when asked; the answer is returned; the store changes only on success |
| CoreModule.Module.DeleteConfig | src/Core/Module.php:130-133 | one delete under the prefixed, upper-cased name; the answer is returned |
| CoreModule.Module.CreateTables | src/Core/Module.php:329-347 | creates the tables in order and stops at the first refusal with one error naming that table; true if and only if every create succeeded |
| CoreModule.Module.DeleteTables | src/Core/Module.php:354-372 | drops the tables in order and stops at the first refusal with one error naming that table; true if and only if every drop succeeded |
| CoreModule.Module.WriteDefaults | src/Core/Module.php:194-196 | every default goes through `setConfig`, in order, unserialised and not as HTML; the answers are ignored |
| CoreModule.Module.RegisterHooks | src/Core/Module.php:200-214 | every hook is tried in order; each refusal adds its error and makes the result false |
| CoreModule.Module.Install | src/Core/Module.php:192-217 | the result is base install, all creates and all registrations succeeding; the trace, store and `_errors` are exactly the sequence above; the controller's notices are unchanged |
| CoreModule.Module.Uninstall | src/Core/Module.php:222-233 | true if and only if the base uninstall and `deleteTables` both succeed; the defaults' entries are deleted only then |
| CoreModule.Module.Confirm | src/Core/Module.php:240-243 | the message goes last on the controller's confirmations; `hasErrors`, and whether `shouldDisplayForm` shows the form for any table and request, are unchanged |
| CoreModule.Module.Error | src/Core/Module.php:250-253 | the message goes last on the controller's errors, so `hasErrors` holds afterwards and `shouldDisplayForm` shows the form again for every table whose submit the request carries |
| CoreModule.Module.Url | src/Core/Module.php:309-322 | a falsy controller becomes `AdminModules` with `configure` set to the module name and every other parameter kept; the parameters go in exactly one of the two slots; the token flag passes through |
| CoreModule.Module.Write | src/Core/Module.php:407-418 | appends the string, or each string of the list in order, to the content and returns the new content; a `null` content stays `null` only when nothing is appended |

## Left out

- src/Traits/LoggerTrait.php is not part of this model. It only memoises a service lookup.
- `Db::getResults`, `getRow`, `getValue`, `insert` and `query` are plain calls into the framework's database layer, so they are not modelled.
- `bqSQL` and `pSQL` are uninterpreted. So the shape of `where`'s output is stated as the exact length formula (`CoreDb.WhereLength`) and not as a count of parenthesis pairs, because escaped names and values may themselves contain parentheses.
- Exceptions thrown by the framework's database layer are not modelled. Every framework call returns a boolean answer passed in as a parameter.
- Running `create` twice is harmless because of `IF NOT EXISTS`. That is database behaviour, so it is not modelled.
- `CoreModule.ToUpper`: only ASCII letters are upper-cased. The framework's multibyte upper-casing of other letters is not modelled.
- `CoreModule.Module.GetConfig`: the `$id_lang` argument and `getConfigLang` are not modelled. The store is keyed by name only.
- `CoreModule.Module.SetConfig`: `Configuration::updateValue` is assumed to change the store exactly when it reports success. Its per-language handling of array values is not modelled.
- `CoreModule.Module.Install`: errors that `parent::install()` records itself are not modelled. The answers of the default writes are inputs (`written`) because install ignores them.
- Messages are modelled as the `CoreModule.ModuleError` constructors, each with its hook or table name. The translated text is not modelled, and neither is `getSwitchValues`'s translated labels: `CoreForm.Form.AddSwitch` takes the two labels as parameters.
- `CoreForm.Form.AddField`: PHP turns a field name that is a decimal integer string into an integer key. The model always uses a string key. The same applies to column names in `CoreSchema.Create`, which the model takes as strings.
- `CoreModule.Module.Write`: only strings are appended. PHP's conversion of other values to strings is not modelled.
- `CoreForm.Routed`: the `in_array($type, ['warning', 'info'])` test at src/Core/Form.php:412 is modelled as PHP 8's comparison. Under PHP 7's loose comparison, an integer message type `0` equals `'warning'`, so such a message would go to the warnings; the model drops it, as PHP 8 does.
- `CoreForm.Selected`: only message groups whose value is an array are modelled. For a string-valued group, `isset($messages[$message])` at src/Core/Form.php:424 reads one character of the string and line 425 displays it. The model treats every non-array group as selecting nothing.
- `getTables` `include`s a file from disk. The table list is a constant of the module object (`tables`).
- The following are asset, template or framework plumbing with no logic of their own, so they are not modelled:
  - `isPrior` (`Tools::version_compare`) and `getModuleDir`;
  - `registerJavascript` and `registerStylesheet`;
  - `render` and `Form::render`/`generate`;
  - `isUsingNewTranslationSystem` and `isSubmitted`;
  - the one-line property setters `set`, `setCurrentIndex`, `setIdentifier`, `setModule`, `setSubmitAction`, `setToken`, `setTable` and `setTplVars`.
- `CoreForm.Form.DisplayMessages` covers any `messages` value. In the source it runs only from the constructor (src/Core/Form.php:50), where the final class's `messages` is still unset, so the shipped class never reaches this routing.
- The constructors are not modelled, including the form's `setDefaults`, `setMessages` and `handleRequest`. The model's constructors only establish a starting state.
- `Link::getAdminLink` is not modelled. `CoreModule.Module.Url` returns the arguments it would receive.
