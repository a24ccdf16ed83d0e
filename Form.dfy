/** The admin form builder (src/Core/Form.php): an object whose setters and
    adders update its properties in place, `configure`, which assembles them
    into the nested descriptor the framework renders, and the routing of
    messages to the controller's notice lists. */
module CoreForm {
  import opened Php
  import opened Framework

  /** The four configuration steps `configure` runs first; each is empty
      in this class. */
  datatype Step = HeaderStep | FieldsStep | ButtonsStep | ValuesStep

  /** The entries every field starts from. */
  function FieldDefaults(name: string, fieldType: string): Entries
  {
    [(StrKey("name"), Str(name)), (StrKey("type"), Str(fieldType))]
  }

  /** What `addField` stores: the defaults overridden by the options. */
  function FieldDescriptor(name: string, fieldType: string, options: Entries): Value
  {
    Arr(Replace(FieldDefaults(name, fieldType), options))
  }

  /** `getSwitchValues`, with the translated labels given. */
  function SwitchValues(yesLabel: Value, noLabel: Value): Value
  {
    Arr(List([
      Arr([(StrKey("id"), Str("active_on")), (StrKey("label"), yesLabel), (StrKey("value"), Int(1))]),
      Arr([(StrKey("id"), Str("active_off")), (StrKey("label"), noLabel), (StrKey("value"), Int(0))])
    ]))
  }

  /** The options `addSwitch` hands to `addField`. */
  function SwitchOptions(yesLabel: Value, noLabel: Value, options: Entries): Entries
  {
    Replace([(StrKey("values"), SwitchValues(yesLabel, noLabel))], options)
  }

  /** The header `setHeader` stores: the title, then the icon and the image
      when they are truthy. */
  function HeaderOf(title: Value, icon: Value, image: Value): Entries
  {
    [(StrKey("title"), title)]
      + (if Truthy(icon) then [(StrKey("icon"), icon)] else [])
      + (if Truthy(image) then [(StrKey("image"), image)] else [])
  }

  /** A button or the submit button: the title overridden by the options. */
  function ButtonOf(title: Value, options: Entries): Value
  {
    Arr(Replace([(StrKey("title"), title)], options))
  }

  /** The `form` entry `configure` builds: `input` always, `legend`,
      `submit` and `buttons` only when set to something truthy. */
  function Descriptor(header: Value, fields: Value, submit: Value, buttons: Value): Entries
  {
    (if Truthy(header) then [(StrKey("legend"), header)] else [])
      + [(StrKey("input"), fields)]
      + (if Truthy(submit) then [(StrKey("submit"), submit)] else [])
      + (if Truthy(buttons) then [(StrKey("buttons"), buttons)] else [])
  }

  /** The one-element list `configure` stores in `fields_form`. */
  function FieldsForm(header: Value, fields: Value, submit: Value, buttons: Value): Value
  {
    Arr(List([Arr([(StrKey("form"), Arr(Descriptor(header, fields, submit, buttons)))])]))
  }

  /** The message types that reach some list. */
  predicate Routable(t: Key)
  {
    t in [StrKey("error"), StrKey("confirm"), StrKey("warning"), StrKey("info")]
  }

  /** `displayMessage`: errors, confirmations, or warnings (for both
      `warning` and `info`); any other type is dropped. */
  function Routed(n: Notices, message: Value, t: Key): Notices
  {
    if t == StrKey("error") then n.(errors := n.errors + [message])
    else if t == StrKey("confirm") then n.(confirmations := n.confirmations + [message])
    else if t == StrKey("warning") || t == StrKey("info") then n.(warnings := n.warnings + [message])
    else n
  }

  /** `isset($messages[$k])` for one group of messages. */
  function Selected(group: Value, k: Key): Option<Value>
  {
    if group.Arr? then
      match Lookup(group.entries, k)
      case Some(m) => if m.Null? then None else Some(m)
      case None => None
    else None
  }

  /** The notices after `displayMessages` has walked `groups`; `selected`
      gives, for a message type, the key the request names for it. */
  function Displayed(n: Notices, groups: Entries, selected: Key -> Key): Notices
    decreases |groups|
  {
    if groups == [] then n
    else
      var before := Displayed(n, groups[..|groups| - 1], selected);
      var (t, group) := groups[|groups| - 1];
      match Selected(group, selected(t))
      case Some(m) => Routed(before, m, t)
      case None => before
  }

  function Count(n: Notices): nat
  {
    |n.errors| + |n.confirmations| + |n.warnings|
  }

  /** Each list of `n` is a prefix of the same list of `m`. */
  ghost predicate Extends(n: Notices, m: Notices)
  {
    && |n.errors| <= |m.errors| && m.errors[..|n.errors|] == n.errors
    && |n.confirmations| <= |m.confirmations| && m.confirmations[..|n.confirmations|] == n.confirmations
    && |n.warnings| <= |m.warnings| && m.warnings[..|n.warnings|] == n.warnings
  }

  /** How many groups show a message. */
  function Shown(groups: Entries, selected: Key -> Key): nat
    decreases |groups|
  {
    if groups == [] then 0
    else
      var (t, group) := groups[|groups| - 1];
      Shown(groups[..|groups| - 1], selected)
        + (if Routable(t) && Selected(group, selected(t)).Some? then 1 else 0)
  }

  // ---------------------------------------------------------------------
  // Properties of the descriptors

  /** A field's options win over its defaults; `name` and `type` come first
      and stay there, and the options' other keys follow. */
  lemma FieldDescriptorSpec(name: string, fieldType: string, options: Entries)
    requires UniqueKeys(options)
    ensures var d := FieldDescriptor(name, fieldType, options).entries;
      && UniqueKeys(d)
      && |d| >= 2 && Keys(d)[..2] == [StrKey("name"), StrKey("type")]
      && Lookup(d, StrKey("name")) ==
           (if StrKey("name") in Keys(options) then Lookup(options, StrKey("name")) else Some(Str(name)))
      && Lookup(d, StrKey("type")) ==
           (if StrKey("type") in Keys(options) then Lookup(options, StrKey("type")) else Some(Str(fieldType)))
      && forall k :: k != StrKey("name") && k != StrKey("type") ==> Lookup(d, k) == Lookup(options, k)
  {
    var defaults := FieldDefaults(name, fieldType);
    assert Keys(defaults) == [StrKey("name"), StrKey("type")];
    assert defaults == [defaults[0]] + [defaults[1]];
    LookupConcat([defaults[0]], [defaults[1]], StrKey("name"));
    LookupConcat([defaults[0]], [defaults[1]], StrKey("type"));
    ReplaceSpec(defaults, options);
    forall k | k != StrKey("name") && k != StrKey("type")
      ensures Lookup(Replace(defaults, options), k) == Lookup(options, k)
    {
      LookupFound(options, k);
      LookupFound(defaults, k);
    }
  }

  /** A switch is a field of type `switch` whose `values` are the on (1)
      and off (0) entries, unless the options give `type` or `values`. */
  lemma SwitchDescriptorSpec(name: string, yesLabel: Value, noLabel: Value, options: Entries)
    requires UniqueKeys(options)
    ensures var d := FieldDescriptor(name, "switch", SwitchOptions(yesLabel, noLabel, options)).entries;
      && Lookup(d, StrKey("type")) ==
           (if StrKey("type") in Keys(options) then Lookup(options, StrKey("type")) else Some(Str("switch")))
      && Lookup(d, StrKey("values")) ==
           (if StrKey("values") in Keys(options) then Lookup(options, StrKey("values"))
            else Some(SwitchValues(yesLabel, noLabel)))
  {
    var base := [(StrKey("values"), SwitchValues(yesLabel, noLabel))];
    assert Keys(base) == [StrKey("values")];
    ReplaceSpec(base, options);
    var merged := SwitchOptions(yesLabel, noLabel, options);
    FieldDescriptorSpec(name, "switch", merged);
    LookupFound(merged, StrKey("type"));
    LookupFound(options, StrKey("type"));
  }

  /** The header always has the title, and has the icon (the image) exactly
      when the icon (the image) is truthy. */
  lemma HeaderSpec(title: Value, icon: Value, image: Value)
    ensures var h := HeaderOf(title, icon, image);
      && UniqueKeys(h)
      && Lookup(h, StrKey("title")) == Some(title)
      && Lookup(h, StrKey("icon")) == (if Truthy(icon) then Some(icon) else None)
      && Lookup(h, StrKey("image")) == (if Truthy(image) then Some(image) else None)
  {
    var t: Entries := [(StrKey("title"), title)];
    var i: Entries := if Truthy(icon) then [(StrKey("icon"), icon)] else [];
    var m: Entries := if Truthy(image) then [(StrKey("image"), image)] else [];
    assert HeaderOf(title, icon, image) == t + i + m;
    LookupConcat(t + i, m, StrKey("title"));
    LookupConcat(t, i, StrKey("title"));
    LookupConcat(t + i, m, StrKey("icon"));
    LookupConcat(t, i, StrKey("icon"));
    LookupConcat(t + i, m, StrKey("image"));
    LookupConcat(t, i, StrKey("image"));
    KeysConcat(t + i, m);
    KeysConcat(t, i);
  }

  /** A one-element list is keyed 0. */
  lemma SingleList(v: Value)
    ensures List([v]) == [(IntKey(0), v)]
  {
  }

  /** A lookup in four arrays laid end to end finds the first one that has
      the key. */
  lemma LookupChain(l: Entries, i: Entries, s: Entries, b: Entries, k: Key)
    ensures Lookup(l + i + s + b, k) ==
      if Lookup(l, k).Some? then Lookup(l, k) else if Lookup(i, k).Some? then Lookup(i, k)
      else if Lookup(s, k).Some? then Lookup(s, k) else Lookup(b, k)
  {
    LookupConcat(l + i + s, b, k);
    LookupConcat(l + i, s, k);
    LookupConcat(l, i, k);
  }

  /** What the `form` entry holds under any one key. */
  lemma DescriptorLookup(header: Value, fields: Value, submit: Value, buttons: Value, k: Key)
    ensures Lookup(Descriptor(header, fields, submit, buttons), k) ==
      if k == StrKey("input") then Some(fields)
      else if k == StrKey("legend") && Truthy(header) then Some(header)
      else if k == StrKey("submit") && Truthy(submit) then Some(submit)
      else if k == StrKey("buttons") && Truthy(buttons) then Some(buttons)
      else None
  {
    var l: Entries := if Truthy(header) then [(StrKey("legend"), header)] else [];
    var i: Entries := [(StrKey("input"), fields)];
    var s: Entries := if Truthy(submit) then [(StrKey("submit"), submit)] else [];
    var b: Entries := if Truthy(buttons) then [(StrKey("buttons"), buttons)] else [];
    LookupChain(l, i, s, b, k);
    LookupSingle(StrKey("legend"), header, k);
    LookupSingle(StrKey("input"), fields, k);
    LookupSingle(StrKey("submit"), submit, k);
    LookupSingle(StrKey("buttons"), buttons, k);
  }

  /** The `form` entry's keys are all different. */
  lemma DescriptorUnique(header: Value, fields: Value, submit: Value, buttons: Value)
    ensures UniqueKeys(Descriptor(header, fields, submit, buttons))
  {
    var l: Entries := if Truthy(header) then [(StrKey("legend"), header)] else [];
    var i: Entries := [(StrKey("input"), fields)];
    var s: Entries := if Truthy(submit) then [(StrKey("submit"), submit)] else [];
    var b: Entries := if Truthy(buttons) then [(StrKey("buttons"), buttons)] else [];
    KeysConcat(l + i + s, b);
    KeysConcat(l + i, s);
    KeysConcat(l, i);
  }

  /** `input` is always there, the others exactly when truthy. */
  lemma DescriptorSpec(header: Value, fields: Value, submit: Value, buttons: Value)
    ensures var d := Descriptor(header, fields, submit, buttons);
      && UniqueKeys(d)
      && Lookup(d, StrKey("input")) == Some(fields)
      && Lookup(d, StrKey("legend")) == (if Truthy(header) then Some(header) else None)
      && Lookup(d, StrKey("submit")) == (if Truthy(submit) then Some(submit) else None)
      && Lookup(d, StrKey("buttons")) == (if Truthy(buttons) then Some(buttons) else None)
  {
    DescriptorUnique(header, fields, submit, buttons);
    DescriptorLookup(header, fields, submit, buttons, StrKey("input"));
    DescriptorLookup(header, fields, submit, buttons, StrKey("legend"));
    DescriptorLookup(header, fields, submit, buttons, StrKey("submit"));
    DescriptorLookup(header, fields, submit, buttons, StrKey("buttons"));
  }

  /** A routable message lands at the end of exactly one list; nothing is
      removed, and an unknown type adds nothing. */
  lemma RoutedSpec(n: Notices, message: Value, t: Key)
    ensures Extends(n, Routed(n, message, t))
    ensures Count(Routed(n, message, t)) == Count(n) + (if Routable(t) then 1 else 0)
    ensures t == StrKey("error") ==> Routed(n, message, t).errors == n.errors + [message]
    ensures t == StrKey("confirm") ==> Routed(n, message, t).confirmations == n.confirmations + [message]
    ensures t in [StrKey("warning"), StrKey("info")] ==> Routed(n, message, t).warnings == n.warnings + [message]
  {
  }

  /** `displayMessages` only appends, and appends one notice for each group
      whose type is routable and whose requested message is set. */
  lemma {:induction false} DisplayedSpec(n: Notices, groups: Entries, selected: Key -> Key)
    ensures Extends(n, Displayed(n, groups, selected))
    ensures Count(Displayed(n, groups, selected)) == Count(n) + Shown(groups, selected)
    decreases |groups|
  {
    if groups != [] {
      var init := groups[..|groups| - 1];
      var before := Displayed(n, init, selected);
      DisplayedSpec(n, init, selected);
      var (t, group) := groups[|groups| - 1];
      match Selected(group, selected(t))
      case Some(m) =>
        RoutedSpec(before, m, t);
        ExtendsTransitive(n, before, Routed(before, m, t));
      case None =>
    }
  }

  lemma ExtendsTransitive(a: Notices, b: Notices, c: Notices)
    requires Extends(a, b) && Extends(b, c)
    ensures Extends(a, c)
  {
    assert c.errors[..|a.errors|] == c.errors[..|b.errors|][..|a.errors|];
    assert c.confirmations[..|a.confirmations|] == c.confirmations[..|b.confirmations|][..|a.confirmations|];
    assert c.warnings[..|a.warnings|] == c.warnings[..|b.warnings|][..|a.warnings|];
  }

  // ---------------------------------------------------------------------
  // The form object

  class Form {
    /** The framework, whose controller holds the notice lists. */
    const host: Host
    var buttons: Value
    var fields: Value
    var header: Value
    var messages: Value
    var submitButton: Value
    /** The inherited `fields_form`. */
    var fieldsForm: Value
    /** The inherited `fields_value`. */
    var fieldsValue: Value
    var showToolbar: bool
    var showCancelButton: bool
    /** The configuration steps run so far, in order. */
    ghost var steps: seq<Step>

    /** The array properties are unset or duplicate-free arrays. */
    ghost predicate Valid()
      reads this
    {
      && (fields.Null? || (fields.Arr? && UniqueKeys(fields.entries)))
      && (buttons.Null? || (buttons.Arr? && UniqueKeys(buttons.entries)))
      && fieldsValue.Arr? && UniqueKeys(fieldsValue.entries)
    }

    /** A form over any `messages` property (the source's declaration leaves
        it unset, and `setMessages` does not change it); every other property
        starts unset. */
    constructor (host: Host, messages: Value)
      ensures Valid() && this.host == host && this.messages == messages
      ensures fields == Null && buttons == Null && header == Null && submitButton == Null
      ensures fieldsValue == Arr([]) && steps == []
    {
      this.host := host;
      this.messages := messages;
      buttons, fields, header, submitButton := Null, Null, Null, Null;
      fieldsForm, fieldsValue := Arr([]), Arr([]);
      showToolbar, showCancelButton := false, false;
      steps := [];
    }

    /** `addField`: sets `fields[name]` to the field's descriptor, replacing
        an earlier field of that name in place and leaving every other
        field alone. */
    method AddField(name: string, fieldType: string := "text", options: Entries := [])
      requires Valid()
      modifies this`fields
      ensures Valid()
      ensures fields == Arr(Assign(EntriesOf(old(fields)), StrKey(name), FieldDescriptor(name, fieldType, options)))
      ensures Lookup(fields.entries, StrKey(name)) == Some(FieldDescriptor(name, fieldType, options))
      ensures forall k :: k != StrKey(name) ==> Lookup(fields.entries, k) == Lookup(EntriesOf(old(fields)), k)
      ensures Keys(fields.entries) ==
        if StrKey(name) in Keys(EntriesOf(old(fields))) then Keys(EntriesOf(old(fields)))
        else Keys(EntriesOf(old(fields))) + [StrKey(name)]
    {
      AssignSpec(EntriesOf(fields), StrKey(name), FieldDescriptor(name, fieldType, options));
      fields := Arr(Assign(EntriesOf(fields), StrKey(name), FieldDescriptor(name, fieldType, options)));
    }

    /** `addSwitch`: a `switch` field whose default `values` are the on/off
        pair, overridable by the options. */
    method AddSwitch(name: string, yesLabel: Value, noLabel: Value, options: Entries := [])
      requires Valid()
      modifies this`fields
      ensures Valid()
      ensures fields == Arr(Assign(EntriesOf(old(fields)), StrKey(name),
        FieldDescriptor(name, "switch", SwitchOptions(yesLabel, noLabel, options))))
    {
      AddField(name, "switch", Replace([(StrKey("values"), SwitchValues(yesLabel, noLabel))], options));
    }

    /** `setHeader`. */
    method SetHeader(title: Value, icon: Value := Null, image: Value := Null)
      modifies this`header
      ensures header == Arr(HeaderOf(title, icon, image))
    {
      header := Arr([(StrKey("title"), title)]);
      if Truthy(icon) {
        AssignFresh(header.entries, StrKey("icon"), icon);
        header := Arr(Assign(header.entries, StrKey("icon"), icon));
      }
      if Truthy(image) {
        AssignFresh(header.entries, StrKey("image"), image);
        header := Arr(Assign(header.entries, StrKey("image"), image));
      }
    }

    /** `setSubmitButton`: `{title}` overridden by the options. */
    method SetSubmitButton(title: Value, options: Entries := [])
      modifies this`submitButton
      ensures submitButton == ButtonOf(title, options)
    {
      submitButton := Arr(Replace([(StrKey("title"), title)], options));
    }

    /** `addButton`: appends one button after the earlier ones. */
    method AddButton(title: Value, options: Entries := [])
      requires Valid()
      modifies this`buttons
      ensures Valid()
      ensures buttons == Arr(Push(EntriesOf(old(buttons)), ButtonOf(title, options)))
      ensures |buttons.entries| == |EntriesOf(old(buttons))| + 1
      ensures buttons.entries[..|EntriesOf(old(buttons))|] == EntriesOf(old(buttons))
      ensures buttons.entries[|buttons.entries| - 1].1 == ButtonOf(title, options)
    {
      PushSpec(EntriesOf(buttons), ButtonOf(title, options));
      buttons := Arr(Push(EntriesOf(buttons), Arr(Replace([(StrKey("title"), title)], options))));
    }

    /** `setValue`: changes the one key. */
    method SetValue(key: Key, value: Value)
      requires Valid()
      modifies this`fieldsValue
      ensures Valid()
      ensures fieldsValue == Arr(Assign(old(fieldsValue).entries, key, value))
      ensures Lookup(fieldsValue.entries, key) == Some(value)
      ensures forall k :: k != key ==> Lookup(fieldsValue.entries, k) == Lookup(old(fieldsValue).entries, k)
    {
      AssignSpec(fieldsValue.entries, key, value);
      fieldsValue := Arr(Assign(fieldsValue.entries, key, value));
    }

    /** `setValues`: replaces the whole map. */
    method SetValues(values: Entries)
      requires Valid() && UniqueKeys(values)
      modifies this`fieldsValue
      ensures Valid() && fieldsValue == Arr(values)
    {
      fieldsValue := Arr(values);
    }

    /** `setShowToolbar`: stores the argument cast to bool. */
    method SetShowToolbar(show: Value)
      modifies this`showToolbar
      ensures showToolbar == Truthy(show)
    {
      showToolbar := Truthy(show);
    }

    /** `setShowCancelButton`: stores the argument cast to bool. */
    method SetShowCancelButton(show: Value)
      modifies this`showCancelButton
      ensures showCancelButton == Truthy(show)
    {
      showCancelButton := Truthy(show);
    }

    method ConfigureHeader()
      modifies this`steps
      ensures steps == old(steps) + [HeaderStep]
    {
      steps := steps + [HeaderStep];
    }

    method ConfigureFields()
      modifies this`steps
      ensures steps == old(steps) + [FieldsStep]
    {
      steps := steps + [FieldsStep];
    }

    method ConfigureButtons()
      modifies this`steps
      ensures steps == old(steps) + [ButtonsStep]
    {
      steps := steps + [ButtonsStep];
    }

    method ConfigureValues()
      modifies this`steps
      ensures steps == old(steps) + [ValuesStep]
    {
      steps := steps + [ValuesStep];
    }

    /** `configure`: runs the four steps in order, then stores the
        one-element list holding the assembled `form` descriptor. */
    method Configure()
      modifies this`steps, this`fieldsForm
      ensures steps == old(steps) + [HeaderStep, FieldsStep, ButtonsStep, ValuesStep]
      ensures fieldsForm == FieldsForm(header, fields, submitButton, buttons)
    {
      ConfigureHeader();
      ConfigureFields();
      ConfigureButtons();
      ConfigureValues();
      var form: Entries := [];
      if Truthy(header) {
        form := Assign(form, StrKey("legend"), header);
      }
      AssignFresh(form, StrKey("input"), fields);
      form := Assign(form, StrKey("input"), fields);
      if Truthy(submitButton) {
        AssignFresh(form, StrKey("submit"), submitButton);
        form := Assign(form, StrKey("submit"), submitButton);
      }
      if Truthy(buttons) {
        AssignFresh(form, StrKey("buttons"), buttons);
        form := Assign(form, StrKey("buttons"), buttons);
      }
      assert form == Descriptor(header, fields, submitButton, buttons);
      SingleList(Arr([(StrKey("form"), Arr(form))]));
      fieldsForm := Arr([(IntKey(0), Arr([(StrKey("form"), Arr(form))]))]);
    }

    /** `displayMessage`. */
    method DisplayMessage(message: Value, t: Key := StrKey("error"))
      modifies host`notices
      ensures host.notices == Routed(old(host.notices), message, t)
    {
      if t == StrKey("error") {
        host.notices := host.notices.(errors := host.notices.errors + [message]);
      } else if t == StrKey("confirm") {
        host.notices := host.notices.(confirmations := host.notices.confirmations + [message]);
      } else if t == StrKey("warning") || t == StrKey("info") {
        host.notices := host.notices.(warnings := host.notices.warnings + [message]);
      }
    }

    /** `displayMessages`: for each message type, the message the request
        selects is displayed when it is set. */
    method DisplayMessages(selected: Key -> Key)
      modifies host`notices
      ensures host.notices ==
        if messages.Arr? then Displayed(old(host.notices), messages.entries, selected) else old(host.notices)
    {
      if messages.Arr? {
        var groups := messages.entries;
        for i := 0 to |groups|
          invariant host.notices == Displayed(old(host.notices), groups[..i], selected)
        {
          var (t, group) := groups[i];
          assert groups[..i + 1][..i] == groups[..i];
          var picked := Selected(group, selected(t));
          if picked.Some? {
            DisplayMessage(picked.value, t);
          }
        }
        assert groups[..|groups|] == groups;
      }
    }
  }
}
