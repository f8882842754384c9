/** The `Button` component: role gate, variant and size lookups with their fallbacks,
    and the disabled/loading logic. Class strings are kept as their parts. */
module Button {
  import opened Wrappers
  import opened Visibility

  datatype VariantStyle = VariantStyle(base: string, disabled: string, focus: string)

  const Primary := VariantStyle(
    "bg-indigo-600 hover:bg-indigo-700 text-white", "bg-indigo-300 cursor-not-allowed",
    "focus:ring-2 focus:ring-offset-2 focus:ring-indigo-500")
  const Secondary := VariantStyle(
    "bg-gray-200 hover:bg-gray-300 text-gray-800", "bg-gray-100 cursor-not-allowed text-gray-400",
    "focus:ring-2 focus:ring-offset-2 focus:ring-gray-500")
  const Danger := VariantStyle(
    "bg-red-600 hover:bg-red-700 text-white", "bg-red-300 cursor-not-allowed",
    "focus:ring-2 focus:ring-offset-2 focus:ring-red-500")
  const Outline := VariantStyle(
    "border border-indigo-600 text-indigo-600 hover:bg-indigo-50", "border-gray-300 text-gray-400 cursor-not-allowed",
    "focus:ring-2 focus:ring-offset-2 focus:ring-indigo-500")

  const Small := "px-3 py-1.5 text-sm"
  const Medium := "px-4 py-2 text-sm"
  const Large := "px-6 py-3 text-base"

  /** Parameter defaults of the component. */
  const DefaultVariant := "primary"
  const DefaultSize := "medium"
  const DefaultUserRole := "admin"

  /** `buttonVariants[variant]`. */
  function VariantLookup(variant: string): Option<VariantStyle> {
    if variant == "primary" then Some(Primary)
    else if variant == "secondary" then Some(Secondary)
    else if variant == "danger" then Some(Danger)
    else if variant == "outline" then Some(Outline)
    else None
  }

  /** `buttonSizes[size]`. */
  function SizeLookup(size: string): Option<string> {
    if size == "small" then Some(Small)
    else if size == "medium" then Some(Medium)
    else if size == "large" then Some(Large)
    else None
  }

  datatype ButtonProps = ButtonProps(
    variant: string, size: string, disabled: bool, loading: bool,
    className: string, roles: seq<string>, userRole: string)

  /** What the component renders: the style parts in class order, the `disabled`
      attribute and whether the spinner is drawn. */
  datatype ButtonView = ButtonView(
    style: VariantStyle, sizeClass: string, stateClass: string, className: string,
    isDisabled: bool, showSpinner: bool)

  /** `Button(props)`; `None` is the `return null` of the role gate. */
  function RenderButton(p: ButtonProps): (r: Option<ButtonView>)
    ensures r.Some? <==> |p.roles| == 0 || p.userRole in p.roles
    ensures r.Some? ==> (r.value.isDisabled <==> p.disabled || p.loading)
    ensures r.Some? ==> (r.value.stateClass != "" <==> p.disabled || p.loading)
    ensures r.Some? && r.value.stateClass != "" ==> r.value.stateClass == r.value.style.disabled
    ensures r.Some? ==> (r.value.showSpinner <==> p.loading)
    ensures r.Some? && VariantLookup(p.variant).Some? ==> r.value.style == VariantLookup(p.variant).value
    ensures r.Some? && SizeLookup(p.size).Some? ==> r.value.sizeClass == SizeLookup(p.size).value
    ensures r.Some? && VariantLookup(p.variant).None? ==> r.value.style == Primary
    ensures r.Some? && SizeLookup(p.size).None? ==> r.value.sizeClass == Medium
  {
    if !RoleAllows(p.roles, p.userRole) then None
    else
      var style := VariantLookup(p.variant).GetOr(Primary);
      var size := SizeLookup(p.size).GetOr(Medium);
      var inactive := p.disabled || p.loading;
      Some(ButtonView(style, size, if inactive then style.disabled else "", p.className, inactive, p.loading))
  }

  /** An unknown variant renders as 'primary' and an unknown size as 'medium'. */
  lemma UnknownVariantAndSizeFallBack(p: ButtonProps)
    requires VariantLookup(p.variant).None? && SizeLookup(p.size).None?
    ensures RenderButton(p) == RenderButton(p.(variant := DefaultVariant, size := DefaultSize))
  {
  }

  /** A button given only its defaults is an enabled, medium, primary button that the
      default role sees whenever 'admin' is listed. */
  lemma DefaultButton(className: string, roles: seq<string>)
    requires |roles| == 0 || "admin" in roles
    ensures RenderButton(ButtonProps(DefaultVariant, DefaultSize, false, false, className, roles, DefaultUserRole))
      == Some(ButtonView(Primary, Medium, "", className, false, false))
  {
  }
}
