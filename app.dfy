/** The session of one browser tab (app.py, `main`, `admin_page` and the
    buttons of the pages): which page is selected, who is logged in, whether
    the admin password was given, and what one run of the script shows and
    changes. Every method is one run of the script, either after choosing a
    page in the sidebar or after pressing the one button the current page
    shows. A run that ends in `st.rerun()` returns the state the next run
    starts from. */
module App {
  import opened Strings
  import opened Records
  import opened Progress
  import opened Reporting
  import opened Store

  /** The sidebar menu. */
  datatype Page = LoginPage | MetadataPage | TranslatePage | AdminPage | RefreshPage | AboutPage

  /** What a run shows. */
  datatype Screen =
    | LoginForm                      // "Enter your username"
    | LoggedInAs(user: string)       // "Logged in as ..." with "Next"
    | Welcome(typed: string)         // "Welcome, ...!" with the name as typed
    | InvalidUsername                // "Please enter a valid username."
    | PleaseLogin                    // "Please login first."
    | MetadataForm                   // the metadata form
    | MetadataSaved                  // "Metadata saved successfully!"
    | Translation(view: TranslateView)
    | Submitted(outcome: SubmitOutcome)
    | AdminPasswordForm              // "Enter Admin Password"
    | AdminWelcome                   // "Welcome, Admin!"
    | IncorrectPassword              // "Incorrect password."
    | NoUserData                     // "No user data yet."
    | Dashboard(progress: seq<ProgressRow>, people: seq<MetadataRow>, rows: seq<TranslationRow>)
    | Refreshed                      // "App refreshed."
    | AboutText
    | NoButton                       // the pressed button is not on the current page

  class Session {
    var username: Option<string>
    var loggedIn: bool
    var page: Page
    var adminLoggedIn: bool
    /** The progress file, shared by every session. */
    const store: ProgressStore
    /** `st.secrets["admin"]["password"]` */
    const adminPassword: string

    /** A logged-in session holds a stripped, non-empty username; a run
        never ends on the Refresh page, since it clears the session and
        starts again from Login. */
    ghost predicate Valid()
      reads this, store
    {
      && store.Valid()
      && (loggedIn <==> username.Some?)
      && (username.Some? ==> username.value != [] && Trimmed(username.value))
      && page != RefreshPage
    }

    /** A fresh session (app.py:240-245): nobody logged in, on the Login page. */
    constructor(progress: ProgressStore, password: string)
      requires progress.Valid()
      ensures Valid()
      ensures store == progress && adminPassword == password
      ensures username == None && !loggedIn && page == LoginPage && !adminLoggedIn
    {
      store := progress;
      adminPassword := password;
      username := None;
      loggedIn := false;
      page := LoginPage;
      adminLoggedIn := false;
    }

    /** Choosing a page in the sidebar, no button pressed (app.py:247-297,
        with `admin_page` at 152-206). */
    method Navigate(choice: Page, sentences: seq<string>) returns (screen: Screen)
      requires Valid()
      modifies this, store
      ensures Valid()
      ensures choice == RefreshPage ==>
                && username == None && !loggedIn && page == LoginPage && !adminLoggedIn
                && screen == Refreshed
      ensures choice != RefreshPage ==>
                && page == choice && username == old(username) && loggedIn == old(loggedIn)
                && adminLoggedIn == old(adminLoggedIn)
      ensures choice == TranslatePage && old(loggedIn) ==>
                && store.data == Visited(old(store.data), username.value, |sentences|)
                && screen == Translation(View(store.data.values[username.value], sentences))
      ensures !(choice == TranslatePage && old(loggedIn)) ==> store.data == old(store.data)
      ensures choice == LoginPage ==> screen == if loggedIn then LoggedInAs(username.value) else LoginForm
      ensures (choice == MetadataPage || choice == TranslatePage) && !old(loggedIn) ==> screen == PleaseLogin
      ensures choice == MetadataPage && old(loggedIn) ==> screen == MetadataForm
      ensures choice == AdminPage ==>
                screen == if !adminLoggedIn then AdminPasswordForm
                          else if store.data.keys == [] then NoUserData
                          else Dashboard(ProgressTable(store.data.keys, store.data.values),
                                         MetadataTable(store.data.keys, store.data.values),
                                         TranslationTable(store.data.keys, store.data.values))
      ensures choice == AboutPage ==> screen == AboutText
      ensures Consistent(old(store.data)) ==> Consistent(store.data)
    {
      if choice == RefreshPage {
        username, loggedIn, page, adminLoggedIn := None, false, LoginPage, false;
        screen := Refreshed;
        return;
      }
      page := choice;
      match choice
      case LoginPage =>
        screen := if loggedIn then LoggedInAs(username.value) else LoginForm;
      case MetadataPage =>
        screen := if loggedIn then MetadataForm else PleaseLogin;
      case TranslatePage =>
        if loggedIn {
          var view := store.VisitTranslate(username.value, sentences);
          screen := Translation(view);
        } else {
          screen := PleaseLogin;
        }
      case AdminPage =>
        if !adminLoggedIn {
          screen := AdminPasswordForm;
        } else if store.data.keys == [] {
          screen := NoUserData;
        } else {
          var progress, people, rows := store.Report();
          screen := Dashboard(progress, people, rows);
        }
      case AboutPage =>
        screen := AboutText;
    }

    /** "Login" on the Login page (app.py:251-262): a username that is not
        blank is stored stripped, and the session moves to Metadata. */
    method Login(typed: string) returns (screen: Screen)
      requires Valid()
      modifies this
      ensures Valid()
      ensures adminLoggedIn == old(adminLoggedIn)
      ensures old(page) == LoginPage && !old(loggedIn) && Strip(typed) != [] ==>
                && username == Some(Strip(typed)) && loggedIn && page == MetadataPage
                && screen == Welcome(typed)
      ensures old(page) == LoginPage && !old(loggedIn) && Strip(typed) == [] ==>
                && username == old(username) && loggedIn == old(loggedIn) && page == old(page)
                && screen == InvalidUsername
      ensures !(old(page) == LoginPage && !old(loggedIn)) ==>
                && username == old(username) && loggedIn == old(loggedIn) && page == old(page)
                && screen == NoButton
    {
      if page == LoginPage && !loggedIn {
        var name := Strip(typed);
        if name != [] {
          username, loggedIn, page := Some(name), true, MetadataPage;
          screen := Welcome(typed);
        } else {
          screen := InvalidUsername;
        }
      } else {
        screen := NoButton;
      }
    }

    /** "Next" on the Login page of a logged-in session (app.py:263-267). */
    method Next() returns (screen: Screen)
      requires Valid()
      modifies this
      ensures Valid()
      ensures username == old(username) && loggedIn == old(loggedIn) && adminLoggedIn == old(adminLoggedIn)
      ensures old(page) == LoginPage && old(loggedIn) ==>
                page == MetadataPage && screen == LoggedInAs(username.value)
      ensures !(old(page) == LoginPage && old(loggedIn)) ==> page == old(page) && screen == NoButton
    {
      if page == LoginPage && loggedIn {
        page := MetadataPage;
        screen := LoggedInAs(username.value);
      } else {
        screen := NoButton;
      }
    }

    /** "Save Metadata" on the Metadata page of a logged-in session
        (app.py:65-79, reached through 269-271): the user's `metadata`
        becomes the five entered values and the session moves to Translate. */
    method SaveMetadata(name: string, sex: Sex, age: Age, gmail: string, country: string) returns (screen: Screen)
      requires Valid()
      modifies this, store
      ensures Valid()
      ensures username == old(username) && loggedIn == old(loggedIn) && adminLoggedIn == old(adminLoggedIn)
      ensures old(page) == MetadataPage && loggedIn ==>
                && store.data == WithMetadata(old(store.data), username.value, MetadataOf(name, sex, age, gmail, country))
                && page == TranslatePage && screen == MetadataSaved
      ensures !(old(page) == MetadataPage && loggedIn) ==>
                store.data == old(store.data) && page == old(page) && screen == NoButton
      ensures Consistent(old(store.data)) ==> Consistent(store.data)
    {
      if page == MetadataPage && loggedIn {
        page := TranslatePage;
        store.SaveMetadata(username.value, MetadataOf(name, sex, age, gmail, country));
        screen := MetadataSaved;
      } else {
        screen := NoButton;
      }
    }

    /** "Submit Translation" on the Translate page of a logged-in session
        (app.py:87-147, reached through 275-277). */
    method SubmitTranslation(text: string, timestamp: string, sentences: seq<string>) returns (screen: Screen)
      requires Valid()
      modifies store
      ensures Valid()
      ensures old(page) == TranslatePage && loggedIn ==>
                var visited := Visited(old(store.data), username.value, |sentences|);
                var s := SubmitRecord(visited.values[username.value], sentences, text, timestamp);
                screen == Submitted(s.outcome) && store.data == visited.Put(username.value, s.record)
      ensures !(old(page) == TranslatePage && loggedIn) ==> store.data == old(store.data) && screen == NoButton
      ensures Consistent(old(store.data)) ==> Consistent(store.data)
    {
      if page == TranslatePage && loggedIn {
        var outcome := store.SubmitTranslation(username.value, sentences, text, timestamp);
        screen := Submitted(outcome);
      } else {
        screen := NoButton;
      }
    }

    /** "Login as Admin" on the Admin page (app.py:155-167): only the exact
        password sets the admin flag. */
    method AdminLogin(password: string) returns (screen: Screen)
      requires Valid()
      modifies this
      ensures Valid()
      ensures username == old(username) && loggedIn == old(loggedIn) && page == old(page)
      ensures old(page) == AdminPage && !old(adminLoggedIn) ==>
                && (adminLoggedIn <==> password == adminPassword)
                && screen == if password == adminPassword then AdminWelcome else IncorrectPassword
      ensures !(old(page) == AdminPage && !old(adminLoggedIn)) ==>
                adminLoggedIn == old(adminLoggedIn) && screen == NoButton
    {
      if page == AdminPage && !adminLoggedIn {
        if password == adminPassword {
          adminLoggedIn := true;
          screen := AdminWelcome;
        } else {
          screen := IncorrectPassword;
        }
      } else {
        screen := NoButton;
      }
    }
  }
}
