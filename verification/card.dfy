/** The `Card` component: role gate, padding lookup and header presence. */
module Card {
  import opened Wrappers
  import opened Visibility
  import Button

  /** A `title` of "" stands for a missing (falsy) title. `padding` is `None` when the
      prop is omitted. */
  datatype CardProps = CardProps(
    title: string, hasHeaderActions: bool, className: string,
    roles: seq<string>, userRole: string, padding: Option<string>)

  datatype CardView = CardView(paddingClass: string, hasHeader: bool, showTitle: bool, showActions: bool)

  const DefaultPadding := "normal"

  /** How the template literal renders `paddingClasses[padding]` for a key the table
      lacks: the value `undefined` becomes the text "undefined". */
  const MissingPaddingText := "undefined"

  /** `paddingClasses[padding]` with the prop defaulting to 'normal'. */
  function PaddingClass(padding: Option<string>): (c: string)
    ensures c == "" <==> padding == Some("none")
    ensures c == "p-4" <==> padding == Some("small")
    ensures c == "p-6" <==> padding == None || padding == Some("normal")
    ensures c == "p-8" <==> padding == Some("large")
    ensures c == MissingPaddingText <==> padding.Some? && padding.value !in {"none", "small", "normal", "large"}
  {
    match padding.GetOr(DefaultPadding)
    case "none" => ""
    case "small" => "p-4"
    case "normal" => "p-6"
    case "large" => "p-8"
    case _ => MissingPaddingText
  }

  /** `Card(props)`; `None` is the `return null` of the role gate. */
  function RenderCard(p: CardProps): (r: Option<CardView>)
    ensures r.None? <==> |p.roles| > 0 && p.userRole !in p.roles
    ensures r.Some? ==> (r.value.hasHeader <==> p.title != "" || p.hasHeaderActions)
    ensures r.Some? ==> (r.value.showTitle <==> p.title != "") && (r.value.showActions <==> p.hasHeaderActions)
    ensures r.Some? ==> r.value.paddingClass == PaddingClass(p.padding)
  {
    if !RoleAllows(p.roles, p.userRole) then None
    else Some(CardView(PaddingClass(p.padding), p.title != "" || p.hasHeaderActions, p.title != "", p.hasHeaderActions))
  }

  /** A card that lists no roles is rendered for every user role. */
  lemma NoRolesAlwaysVisible(p: CardProps, role: string)
    requires |p.roles| == 0
    ensures RenderCard(p.(userRole := role)).Some?
  {
  }

  /** `Card` and `Button` hide themselves for exactly the same role lists and users. */
  lemma SameGateAsButton(c: CardProps, b: Button.ButtonProps)
    requires c.roles == b.roles && c.userRole == b.userRole
    ensures RenderCard(c).Some? <==> Button.RenderButton(b).Some?
  {
  }
}
