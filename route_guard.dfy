/** The front end's access control: the role kept under the `userRole` key of
    local storage, set by the login buttons and removed by logout, and the
    `ProtectedRoute` guard wrapped around every manager and employee page. */
module RouteGuard {
  import opened Wrappers

  const Manager := "manager"
  const Employee := "employee"

  const Home := "/"
  const ManagerDashboard := "/manager/dashboard"
  const EmployeeDashboard := "/employee/dashboard"

  /** What a guarded route renders: its page, or a replacing redirect. */
  datatype Guard = Render | Redirect(to: string)

  /** `ProtectedRoute`. The stored role is `None` when the key is absent; an
      empty stored role is falsy like an absent one, and so is an empty
      required role, which then admits every signed-in user. */
  function ProtectedRoute(stored: Option<string>, requiredRole: string): (g: Guard)
    ensures g == Render <==> stored.Some? && stored.value != "" && (requiredRole == "" || stored.value == requiredRole)
    ensures g == Redirect(Home) <==> stored.None? || stored.value == ""
    ensures g.Redirect? && g.to != Home ==> stored.Some? && requiredRole != "" && stored.value != requiredRole
    ensures g.Redirect? ==> g.to in {Home, ManagerDashboard, EmployeeDashboard}
  {
    if stored.None? || stored.value == "" then Redirect(Home)
    else if requiredRole != "" && stored.value != requiredRole then
      (if stored.value == Manager then Redirect(ManagerDashboard) else Redirect(EmployeeDashboard))
    else Render
  }

  /** The pages of the route table. */
  datatype Page = IndexPage | ManagerDashboardPage | CreateProjectPage | ProjectTasksPage | CreateTaskPage
                | TaskAllocationPage | EmployeeDashboardPage | NotFoundPage

  /** The path pattern each page is mounted at; the catch-all is `*`. */
  function PathOf(p: Page): string
  {
    match p
    case IndexPage => Home
    case ManagerDashboardPage => ManagerDashboard
    case CreateProjectPage => "/manager/create-project"
    case ProjectTasksPage => "/manager/project/:projectId"
    case CreateTaskPage => "/manager/project/:projectId/create-task"
    case TaskAllocationPage => "/manager/project/:projectId/task/:taskId/allocation"
    case EmployeeDashboardPage => EmployeeDashboard
    case NotFoundPage => "*"
  }

  /** The role a page's `ProtectedRoute` requires, or `None` for an open page. */
  function GuardRole(p: Page): Option<string>
  {
    match p
    case IndexPage => None
    case NotFoundPage => None
    case EmployeeDashboardPage => Some(Employee)
    case _ => Some(Manager)
  }

  /** The router: the page whose pattern is `path`, the catch-all otherwise. */
  function RouteOf(path: string): (p: Page)
    ensures p != NotFoundPage ==> PathOf(p) == path
  {
    if path == Home then IndexPage
    else if path == ManagerDashboard then ManagerDashboardPage
    else if path == "/manager/create-project" then CreateProjectPage
    else if path == "/manager/project/:projectId" then ProjectTasksPage
    else if path == "/manager/project/:projectId/create-task" then CreateTaskPage
    else if path == "/manager/project/:projectId/task/:taskId/allocation" then TaskAllocationPage
    else if path == EmployeeDashboard then EmployeeDashboardPage
    else NotFoundPage
  }

  /** What visiting `path` shows. */
  function Visit(stored: Option<string>, path: string): Guard
  {
    match GuardRole(RouteOf(path))
    case None => Render
    case Some(role) => ProtectedRoute(stored, role)
  }

  /** `handleLogin`: store the chosen role and go to its dashboard. */
  function Login(role: string): (r: (Option<string>, string))
    requires role == Manager || role == Employee
    ensures r.0 == Some(role)
    ensures r.1 == (if role == Manager then ManagerDashboard else EmployeeDashboard)
  {
    (Some(role), if role == Manager then ManagerDashboard else EmployeeDashboard)
  }

  /** `handleLogout`: remove the stored role and go home. */
  function Logout(stored: Option<string>): (r: (Option<string>, string))
    ensures r == (None, Home)
  {
    (None, Home)
  }

  // ---------------------------------------------------------------------------
  // The route table

  /** Every page is reached at its own pattern. */
  lemma RouteOfPath(p: Page)
    ensures RouteOf(PathOf(p)) == p
  {
  }

  /** Every guarded page requires the manager role except the employee
      dashboard, which requires the employee role; home and the catch-all are
      the open pages. */
  lemma GuardedPages(p: Page)
    ensures GuardRole(p).None? <==> p == IndexPage || p == NotFoundPage
    ensures GuardRole(p) == Some(Employee) <==> p == EmployeeDashboardPage
    ensures GuardRole(p).Some? && p != EmployeeDashboardPage ==> GuardRole(p) == Some(Manager)
  {
  }

  // ---------------------------------------------------------------------------
  // Properties of the guard

  /** The two dashboards render for their own role. */
  lemma DashboardsRender()
    ensures Visit(Some(Manager), ManagerDashboard) == Render
    ensures Visit(Some(Employee), EmployeeDashboard) == Render
  {
    RouteOfPath(ManagerDashboardPage);
    RouteOfPath(EmployeeDashboardPage);
  }

  /** For a manager or an employee a redirect never leads to a second one:
      the page it goes to is their own dashboard, which renders. */
  lemma NoSecondRedirect(role: string, path: string)
    requires role == Manager || role == Employee
    requires Visit(Some(role), path).Redirect?
    ensures Visit(Some(role), path).to == (if role == Manager then ManagerDashboard else EmployeeDashboard)
    ensures Visit(Some(role), Visit(Some(role), path).to) == Render
  {
    DashboardsRender();
  }

  /** Any other non-empty stored role is sent to the employee dashboard from
      every guarded page, and that page sends it to itself again. */
  lemma UnknownRoleLoops(role: string, path: string)
    requires role != "" && role != Manager && role != Employee
    requires GuardRole(RouteOf(path)).Some?
    ensures Visit(Some(role), path) == Redirect(EmployeeDashboard)
    ensures Visit(Some(role), EmployeeDashboard) == Redirect(EmployeeDashboard)
  {
    RouteOfPath(EmployeeDashboardPage);
  }

  /** After logging in, the page the login navigates to renders. */
  lemma LoginLandsOnDashboard(role: string)
    requires role == Manager || role == Employee
    ensures var (stored, to) := Login(role); Visit(stored, to) == Render
  {
    DashboardsRender();
  }

  /** After logging in as a role, a guarded page renders exactly when it
      requires that role. */
  lemma LoginAccess(role: string, path: string)
    requires role == Manager || role == Employee
    requires GuardRole(RouteOf(path)).Some?
    ensures Visit(Login(role).0, path) == Render <==> GuardRole(RouteOf(path)) == Some(role)
  {
  }

  /** After logging out every guarded page sends the visitor home, and the
      open pages still render. */
  lemma LogoutLocksOut(stored: Option<string>, path: string)
    ensures var (after, to) := Logout(stored);
      to == Home && Visit(after, to) == Render &&
      (GuardRole(RouteOf(path)).Some? ==> Visit(after, path) == Redirect(Home)) &&
      (GuardRole(RouteOf(path)).None? ==> Visit(after, path) == Render)
  {
    RouteOfPath(IndexPage);
  }
}
